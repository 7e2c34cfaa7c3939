# tppctl: credential edit workflow and enumeration filter

tppctl is a command-line client for a certificate and credential platform's
REST configuration API. It has two subcommands:

- `ls` lists the Generic Credential objects under `\VED\Policy`.
- `edit <path>` edits the YAML configuration stored, base64-encoded, in the
  first value of one credential.

This project models the decision logic between the HTTP calls in `main.go`.
Transport, JSON, the temporary file and the editor process are abstract
inputs.

- `Wrappers`: `Option` and `Result`.
- `Base64`: the standard padded alphabet of section 4 of RFC 4648, as Go's
  `base64.StdEncoding` encodes and decodes it. Decoding skips `\r` and `\n`,
  demands correct padding, and does not check the unused bits of a padded
  final group. `Decode(Encode(b)) == Some(b)` is proved for every byte
  sequence.
- `Strings`: `strings.Contains`, as a front-to-back search proved equal to
  "occurs at some position".
- `Api`: the `Credential`, `Contact` and `Values` records, and the two
  distinguished result codes. Each HTTP call is an `Exchange`: either a
  transport failure, or a response whose body did or did not decode.
  `GetCred` and `UpdateCred` model the retrieve and update calls, and
  `Message` gives the text each error prints.
- `Enumerate`: `listObjects` as a method with the source's filter loop. It
  is proved equal to a specification function. Lemmas show that the result
  is exactly the `DN`s of the objects whose `TypeName` contains
  "Generic Credential", in response order.
- `Edit`: `editConfigInCred` as a step-by-step method:
  - fetch;
  - check the result code;
  - require a non-empty `Values`;
  - decode;
  - create the temporary file;
  - run the editor;
  - re-encode into `Values[0].Value`;
  - update.

  Its contract gives the error of each step, and says the update is sent
  exactly when every earlier step succeeded. It also states what is sent
  and that the temporary file is gone on every return. Ghost flags track
  the file.

Three behaviours of the code worth noting:

- Retrieve and update fail on any status other than 200, not on any
  non-2xx status (main.go:110, main.go:215).
- `listObjects` decodes the reply before it checks the status, so an
  undecodable body is reported as a decode error even on a failing status
  (main.go:268-278).
- A generic update error carries the library's name for the code
  (`ResultString(code)`), not the raw number (main.go:235). The model keeps
  the code in the error and takes `ResultString` as a parameter of
  `Message`.

## Model

| member | source | states |
|---|---|---|
| Base64.Encode | main.go:177 | every three bytes become four characters, and a padded final group of four covers the rest, so the output has 4·⌈n/3⌉ characters |
| Base64.RoundTrip | main.go:143-177 | decoding the encoding of any byte sequence gives the same bytes back (section 4 of RFC 4648) |
| Base64.Rfc4648Vectors | main.go:143-177 | the encodings of "", "f", "fo", "foo", "foob", "fooba" and "foobar" are the test vectors of section 10 of RFC 4648; by `RoundTrip` each decodes back |
| Base64.LineBreakIgnored | main.go:143 | a `\r` or `\n` anywhere in the text does not change what it decodes to |
| Base64.DecodeGroups | main.go:143 | once line breaks are removed, only text made of whole four-character groups decodes, to at most three bytes per group |
| Base64.PadBitsIgnored | main.go:143 | the decoder is not strict: "QR==" decodes to the same single byte as the canonical "QQ==" |
| Strings.ContainsIffOccurs | main.go:282 | the substring search succeeds exactly when the phrase occurs at some position of the type name |
| Strings.ContainsInside | main.go:282 | a type name that holds the phrase anywhere, with anything before or after it, passes the test |
| Api.Classify | main.go:129-136 | a result code falls into exactly one of success, attribute-not-found, or another code, which is kept |
| Api.CheckFetched | main.go:129-136 | after a retrieval, only ResultSuccess passes; ResultAttributeNotFound gives the attribute-not-found error for the path; any other code gives the generic fetch error carrying that code |
| Api.CheckUpdated | main.go:229-237 | after an update, only ResultSuccess passes; ResultAttributeNotFound gives the update's attribute-not-found error; any other code gives "error updating" with the code |
| Api.ResultCodeMessages | main.go:129-237 | the retrieval's attribute-not-found text is `attribute not found: '<path>'`; the update's is `attribute not found: ` then the path in `%q` form; any other code gives `error fetching '<path>': ` or `error updating <quoted path>: ` followed by the library's name for the code |
| Api.Message | main.go:106-277 | an update error passed on by the edit workflow prints "while patching Firefly configuration: " followed by the update error's own text; a generic fetch or update error ends with the library's name for its code |
| Api.AttributeMessagesDiffer | main.go:133-233 | the retrieval's and the update's attribute-not-found texts for the same path differ: one wraps the path in single quotes, the other in `%q`'s double quotes |
| Api.QuoteBodyAppend | main.go:233-235 | the `%q` body of a concatenation is the concatenation of the bodies, so each character is escaped independently of its neighbours |
| Api.QuoteBodyChar | main.go:233-235 | a single `"` or `\` becomes a backslash followed by that character; every other character is kept as it is |
| Api.MessageNamesPath | main.go:133-235 | the attribute-not-found, fetch and no-values messages contain the path verbatim; the update's messages contain it in Go's double-quoted form |
| Api.Quote | main.go:233-235 | the `%q` rendering of a path is wrapped in double quotes; reading the text between the quotes back, a backslash standing for the next character, gives the path exactly; a path with no `"` or `\` is only wrapped in quotes |
| Api.GetCred | main.go:88-122 | the retrieval succeeds exactly on a 200 status whose body decodes, and then returns the decoded credential without inspecting its result code; a transport failure names the retrieve endpoint and carries the reason; any other status fails before decoding, with the status and the body; an undecodable 200 body gives the decode error with the decoder's reason |
| Api.UpdateCred | main.go:188-238 | the credential is sent with the path beside it; the update succeeds exactly on a 200 status, a decodable reply and ResultSuccess; a transport failure names the update endpoint; a non-200 status fails first, with the status and body; an undecodable 200 reply passes on the decoder's error; otherwise the reply's code decides |
| Enumerate.ListObjects | main.go:240-288 | sends the recursive request for `\VED\Policy` with an empty pattern; a transport failure, then an undecodable body, then a non-200 status fail in that order; otherwise it returns exactly the filtered paths, whatever the reply's result code |
| Enumerate.PathsNoLonger | main.go:280-287 | the list of paths is never longer than the list of objects |
| Enumerate.PathsAreKeptObjects | main.go:280-287 | the k-th path is the `DN` of the k-th kept object; kept indices increase strictly; an index is kept exactly when its type name contains "Generic Credential" |
| Enumerate.KeepsExtendedTypeName | main.go:282 | a type name that only begins with "Generic Credential" is still kept, because the test is a substring match and not equality |
| Enumerate.GenericCredKept | main.go:311 | the "Generic Credential" type name passes the filter |
| Enumerate.PolicyDropped | main.go:309 | "Policy" is dropped |
| Enumerate.GoogleCredDropped | main.go:310 | "Google Credential" is dropped |
| Enumerate.X509ServerCertDropped | main.go:308 | "X509 Server Certificate" is dropped |
| Enumerate.UsernamePasswordCredDropped | main.go:312 | "Username Password Credential" is dropped |
| Enumerate.OneCredentialOnePolicy | main.go:280-287 | a store with one generic credential at `\VED\Policy\creds\foo` and one policy lists exactly that path |
| Edit.StoredBlobRecovers | main.go:140-146 | a credential whose first value is the base64 text of some bytes yields exactly those bytes as its stored blob |
| Edit.EditConfigInCred | main.go:124-185 | each step fails with its own error. The result code is checked before `Values`, and `Values` before decoding. No update is sent on any failure, and the update is sent exactly when every earlier step succeeded. What is sent is the retrieved credential for the same path, with only `Values[0].Value` changed to the base64 of the edited bytes, and that value decodes to those bytes. The temporary file exists only after decoding succeeds and is removed on every return |
| Edit.EditWithoutChanges | main.go:143-179 | an editor that changes nothing still leads to an update, and the value sent decodes to the retrieved blob |
| Edit.UnchangedKeyValue | main.go:124-185 | with base64("key: value") stored, an unchanging editor and a successful update, the workflow succeeds and the value sent decodes to exactly "key: value" |
| Edit.MissingAttribute | main.go:129-133 | a retrieval answering ResultAttributeNotFound yields `attribute not found: '\VED\Policy\creds\foo'` and sends no update |

## Left out

- HTTP request construction, headers, the client call and reading bodies
  (main.go:88-121, 201-219, 253-278) are network I/O. Each call is an
  abstract `Exchange`, and a JSON marshalling or request-construction
  failure counts as a transport failure.
- The numeric values of `ResultSuccess` and `ResultAttributeNotFound`, and
  `ResultString`, are defined outside main.go. The model fixes the two
  codes at 1 and 2 and uses only their distinctness. `ResultString` is a
  parameter.
- JSON marshalling and the inline merge of the credential with
  `CredentialPath` (main.go:189-196) are library serialisation. The
  request is the record `UpdateRequest(credential, credentialPath)`.
- Temporary-file creation, writing and reading back, and the editor
  subprocess with its streams (main.go:148-175) are OS and process I/O.
  Creating the file is a step that may fail (`createTempFailure`). Writing,
  running the editor and reading back form one abstract function from
  bytes to edited bytes or an error text. The file's life is two ghost
  flags.
- Environment reads, the `vim` default for `EDITOR`, and subcommand
  dispatch in `main` (main.go:20-65, 159-162) are CLI plumbing.
- Edit.EditConfigInCred: the credential is a value, and the in-place
  write to `Values[0].Value` is an update of the workflow's local
  variable. Sharing of the `Values` backing array with the struct passed
  to `updateCred` is not modelled; nothing else holds that array.
- Api.Message: the base64 error omits Go's "illegal base64 data at input
  byte N" suffix, because the model's decoder does not compute Go's error
  offset.
- Api.Message: the `list failed` message omits the body text, which is
  whatever the JSON decoder left unread.
- Api.Quote escapes only `"` and `\`. Go's `%q` also escapes control and
  non-printable characters.
- Base64: encode(decode(s)) == s is not claimed. The decoder accepts
  non-canonical text: line breaks, and non-zero unused bits.
