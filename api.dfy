/** The credential records, the platform's result codes and the two calls of
    the credentials API (retrieve and update). Each HTTP call is an abstract
    exchange: a transport failure, or a response with a status and a body that
    did or did not decode into the expected record. */
module Api {
  import opened Wrappers
  import opened Strings

  // ---------------------------------------------------------------------
  // Result codes

  /** The two result codes the client distinguishes. Their numeric values are
      defined outside main.go; the model fixes them at two distinct values and
      relies on nothing but that distinctness. */
  const ResultSuccess: int := 1
  const ResultAttributeNotFound: int := 2

  /** The closed set of outcomes a result code falls into. */
  datatype ResultKind = Succeeded | AttributeMissing | OtherCode(code: int)

  function Classify(code: int): (k: ResultKind)
    ensures k == Succeeded <==> code == ResultSuccess
    ensures k == AttributeMissing <==> code == ResultAttributeNotFound
    ensures k.OtherCode? ==> k.code == code
  {
    if code == ResultSuccess then Succeeded
    else if code == ResultAttributeNotFound then AttributeMissing
    else OtherCode(code)
  }

  // ---------------------------------------------------------------------
  // Records

  datatype Contact = Contact(prefix: string, prefixedName: string, prefixedUniversal: string,
                             state: int, universal: string)

  /** One entry of a credential's `Values` list; `value` holds base64 text. */
  datatype ValueEntry = ValueEntry(name: string, kind: string, value: string)

  datatype Credential = Credential(classname: string, contact: seq<Contact>, friendlyName: string,
                                   result: int, values: seq<ValueEntry>)

  /** The body of an update: the credential's fields with the path beside them. */
  datatype UpdateRequest = UpdateRequest(credential: Credential, credentialPath: string)

  datatype UpdateReply = UpdateReply(result: int)

  const StatusOK: int := 200

  /** One HTTP round trip. `decoded` is what JSON decoding of the body gives:
      the record, or the decoder's error text. */
  datatype Exchange<T> =
    | TransportFailed(reason: string)
    | Received(statusCode: int, status: string, body: string, decoded: Result<T, string>)

  const RetrieveEndpoint: string := "/vedsdk/credentials/retrieve"
  const UpdateEndpoint: string := "POST /vedsdk/credentials/update"
  const EnumerateEndpoint: string := "/vedsdk/Config/Enumerate"

  // ---------------------------------------------------------------------
  // Errors

  datatype Error =
    | RequestFailed(endpoint: string, reason: string)
    | RetrieveStatus(status: string, body: string)
    | RetrieveDecode(reason: string)
    | FetchAttributeNotFound(path: string)
    | FetchFailed(path: string, code: int)
    | NoValues(path: string)
    | InvalidBase64
    | LocalIo(reason: string)
    | Patching(cause: Error)
    | UpdateStatus(status: string, body: string)
    | UpdateDecode(reason: string)
    | UpdateAttributeNotFound(path: string)
    | UpdateFailed(path: string, code: int)
    | ListDecode(reason: string)
    | ListStatus(status: string)

  /** Go's %q for the characters that occur in credential paths: the text in
      double quotes, with '"' and '\' escaped by a backslash. */
  function Quote(s: string): (q: string)
    ensures |q| >= |s| + 2 && q[0] == '"' && q[|q| - 1] == '"'
    ensures Unescape(q[1..|q| - 1]) == s
    ensures (forall i :: 0 <= i < |s| ==> !NeedsEscape(s[i])) ==> q == "\"" + s + "\""
  {
    UnescapeQuoteBody(s);
    QuoteBodyPlain(s);
    var q := "\"" + QuoteBody(s) + "\"";
    assert q[1..|q| - 1] == QuoteBody(s);
    q
  }

  predicate NeedsEscape(c: char) {
    c == '"' || c == '\\'
  }

  function QuoteBody(s: string): (q: string)
    ensures |q| >= |s|
  {
    if s == [] then ""
    else (if NeedsEscape(s[0]) then ['\\', s[0]] else [s[0]]) + QuoteBody(s[1..])
  }

  /** Text with neither '"' nor '\\' passes through unchanged. */
  lemma {:induction false} QuoteBodyPlain(s: string)
    ensures (forall i :: 0 <= i < |s| ==> !NeedsEscape(s[i])) ==> QuoteBody(s) == s
    decreases |s|
  {
    if s != [] {
      QuoteBodyPlain(s[1..]);
      if forall i :: 0 <= i < |s| ==> !NeedsEscape(s[i]) {
        assert forall i :: 0 <= i < |s[1..]| ==> !NeedsEscape(s[1..][i]);
      }
    }
  }

  /** Quoting works character by character: quoting a concatenation is the
      concatenation of the quoted parts ... */
  lemma {:induction false} QuoteBodyAppend(a: string, b: string)
    ensures QuoteBody(a + b) == QuoteBody(a) + QuoteBody(b)
    decreases |a|
  {
    if a != [] {
      QuoteBodyAppend(a[1..], b);
      assert (a + b)[0] == a[0] && (a + b)[1..] == a[1..] + b;
      var h := if NeedsEscape(a[0]) then ['\\', a[0]] else [a[0]];
      assert QuoteBody(a + b) == h + (QuoteBody(a[1..]) + QuoteBody(b));
      assert QuoteBody(a) == h + QuoteBody(a[1..]);
    } else {
      assert a + b == b;
    }
  }

  /** ... and a single character is escaped exactly when it is '"' or '\\'. */
  lemma QuoteBodyChar(c: char)
    ensures NeedsEscape(c) ==> QuoteBody([c]) == ['\\', c]
    ensures !NeedsEscape(c) ==> QuoteBody([c]) == [c]
  {
    assert [c][1..] == [];
  }

  /** Reads escaped text back: a backslash stands for the character after it. */
  function Unescape(t: string): (s: string)
    ensures |s| <= |t|
    decreases |t|
  {
    if t == [] then ""
    else if t[0] == '\\' && |t| >= 2 then [t[1]] + Unescape(t[2..])
    else [t[0]] + Unescape(t[1..])
  }

  /** Escaping loses nothing: the quoted body reads back as the path. */
  lemma {:induction false} UnescapeQuoteBody(s: string)
    ensures Unescape(QuoteBody(s)) == s
    decreases |s|
  {
    if s != [] {
      UnescapeQuoteBody(s[1..]);
      var t := QuoteBody(s);
      if NeedsEscape(s[0]) {
        assert t == ['\\', s[0]] + QuoteBody(s[1..]);
        assert t[2..] == QuoteBody(s[1..]);
      } else {
        assert t == [s[0]] + QuoteBody(s[1..]);
        assert t[1..] == QuoteBody(s[1..]);
      }
    }
  }

  /** What the workflow puts before an update error it passes on. */
  const PatchingPrefix: string := "while patching Firefly configuration: "

  /** The text each error prints. `resultString` is the platform library's
      name for a result code. */
  function Message(e: Error, resultString: int -> string): (m: string)
    ensures e.Patching? ==>
              |m| >= |PatchingPrefix| &&
              m[..|PatchingPrefix|] == PatchingPrefix &&
              m[|PatchingPrefix|..] == Message(e.cause, resultString)
    ensures e.FetchFailed? || e.UpdateFailed? ==>
              |m| >= |resultString(e.code)| &&
              m[|m| - |resultString(e.code)|..] == resultString(e.code)
  {
    match e
    case RequestFailed(endpoint, reason) => "while making request to " + endpoint + ": " + reason
    case RetrieveStatus(status, body) => "retrieve failed: " + status + ", body: " + body
    case RetrieveDecode(reason) => "while decoding response from " + RetrieveEndpoint + ": " + reason
    case FetchAttributeNotFound(path) => "attribute not found: '" + path + "'"
    case FetchFailed(path, code) => "error fetching '" + path + "': " + resultString(code)
    case NoValues(path) => "no values found in '" + path + "'"
    case InvalidBase64 => "error base64-decoding the field 'Values[0].Value'"
    case LocalIo(reason) => reason
    case Patching(cause) => PatchingPrefix + Message(cause, resultString)
    case UpdateStatus(status, body) => "update failed: " + status + ", body: " + body
    case UpdateDecode(reason) => reason
    case UpdateAttributeNotFound(path) => "attribute not found: " + Quote(path)
    case UpdateFailed(path, code) => "error updating " + Quote(path) + ": " + resultString(code)
    case ListDecode(reason) => "while decoding response from " + EnumerateEndpoint + ": " + reason
    case ListStatus(status) => "list failed: " + status + ": "
  }

  /** The errors about a credential name its path: verbatim after a
      retrieval, in Go's double-quoted form after an update. */
  lemma MessageNamesPath(e: Error, resultString: int -> string)
    ensures e.FetchAttributeNotFound? || e.FetchFailed? || e.NoValues? ==>
              Contains(Message(e, resultString), e.path)
    ensures e.UpdateAttributeNotFound? || e.UpdateFailed? ==>
              Contains(Message(e, resultString), Quote(e.path))
  {
    match e
    case FetchAttributeNotFound(path) => FetchMessagesNamePath(path, 0, resultString);
    case FetchFailed(path, code) => FetchMessagesNamePath(path, code, resultString);
    case NoValues(path) => FetchMessagesNamePath(path, 0, resultString);
    case UpdateAttributeNotFound(path) => UpdateMessagesNamePath(path, 0, resultString);
    case UpdateFailed(path, code) => UpdateMessagesNamePath(path, code, resultString);
    case _ =>
  }

  lemma FetchMessagesNamePath(path: string, code: int, resultString: int -> string)
    ensures Contains(Message(FetchAttributeNotFound(path), resultString), path)
    ensures Contains(Message(FetchFailed(path, code), resultString), path)
    ensures Contains(Message(NoValues(path), resultString), path)
  {
    Framed("attribute not found: '", path, "'", Message(FetchAttributeNotFound(path), resultString));
    Framed("error fetching '", path, "': " + resultString(code), Message(FetchFailed(path, code), resultString));
    Framed("no values found in '", path, "'", Message(NoValues(path), resultString));
  }

  lemma UpdateMessagesNamePath(path: string, code: int, resultString: int -> string)
    ensures Contains(Message(UpdateAttributeNotFound(path), resultString), Quote(path))
    ensures Contains(Message(UpdateFailed(path, code), resultString), Quote(path))
  {
    Framed("attribute not found: ", Quote(path), "", Message(UpdateAttributeNotFound(path), resultString));
    Framed("error updating ", Quote(path), ": " + resultString(code), Message(UpdateFailed(path, code), resultString));
  }

  lemma Framed(pre: string, x: string, post: string, m: string)
    requires m == pre + x + post
    ensures Contains(m, x)
  {
    ContainsInside(pre, x, post);
  }

  /** The texts of the result-code errors. Attribute-not-found names the
      path, in single quotes after a retrieval and in Go's double-quoted form
      after an update; every other code is shown by the platform library's
      name for it, never as the number itself. */
  lemma ResultCodeMessages(path: string, code: int, resultString: int -> string)
    ensures Message(CheckFetched(path, ResultAttributeNotFound).value, resultString)
              == "attribute not found: '" + path + "'"
    ensures Message(CheckUpdated(path, ResultAttributeNotFound).value, resultString)
              == "attribute not found: " + Quote(path)
    ensures code != ResultSuccess && code != ResultAttributeNotFound ==>
              Message(CheckFetched(path, code).value, resultString)
                == "error fetching '" + path + "': " + resultString(code)
    ensures code != ResultSuccess && code != ResultAttributeNotFound ==>
              Message(CheckUpdated(path, code).value, resultString)
                == "error updating " + Quote(path) + ": " + resultString(code)
  {
  }

  /** The two attribute-not-found messages differ: the retrieval's quotes
      the path with '\'', the update's with '"'. */
  lemma AttributeMessagesDiffer(path: string, resultString: int -> string)
    ensures Message(FetchAttributeNotFound(path), resultString) != Message(UpdateAttributeNotFound(path), resultString)
  {
    var f := Message(FetchAttributeNotFound(path), resultString);
    var u := Message(UpdateAttributeNotFound(path), resultString);
    assert f[21] == '\'' && u[21] == '"';
  }

  // ---------------------------------------------------------------------
  // Retrieve

  /** `getCred`: a non-200 status fails before the body is decoded; the
      credential's own result code is passed through uninspected. */
  function GetCred(path: string, retrieve: string -> Exchange<Credential>): (r: Result<Credential, Error>)
    ensures r.Success? <==>
              retrieve(path).Received? && retrieve(path).statusCode == StatusOK && retrieve(path).decoded.Success?
    ensures r.Success? ==> r.value == retrieve(path).decoded.value
    ensures retrieve(path).TransportFailed? ==>
              r == Failure(RequestFailed(RetrieveEndpoint, retrieve(path).reason))
    ensures retrieve(path).Received? && retrieve(path).statusCode == StatusOK && retrieve(path).decoded.Failure? ==>
              r == Failure(RetrieveDecode(retrieve(path).decoded.error))
    ensures retrieve(path).Received? && retrieve(path).statusCode != StatusOK ==>
              r == Failure(RetrieveStatus(retrieve(path).status, retrieve(path).body))
  {
    match retrieve(path)
    case TransportFailed(reason) => Failure(RequestFailed(RetrieveEndpoint, reason))
    case Received(statusCode, status, body, decoded) =>
      if statusCode != StatusOK then Failure(RetrieveStatus(status, body))
      else
        match decoded
        case Failure(reason) => Failure(RetrieveDecode(reason))
        case Success(cred) => Success(cred)
  }

  /** The check of a retrieved credential's result code in the edit workflow. */
  function CheckFetched(path: string, code: int): (r: Option<Error>)
    ensures r.None? <==> code == ResultSuccess
    ensures code == ResultAttributeNotFound ==> r == Some(FetchAttributeNotFound(path))
    ensures code != ResultSuccess && code != ResultAttributeNotFound ==> r == Some(FetchFailed(path, code))
  {
    match Classify(code)
    case Succeeded => None
    case AttributeMissing => Some(FetchAttributeNotFound(path))
    case OtherCode(c) => Some(FetchFailed(path, c))
  }

  // ---------------------------------------------------------------------
  // Update

  /** The check of an update reply's result code. */
  function CheckUpdated(path: string, code: int): (r: Option<Error>)
    ensures r.None? <==> code == ResultSuccess
    ensures code == ResultAttributeNotFound ==> r == Some(UpdateAttributeNotFound(path))
    ensures code != ResultSuccess && code != ResultAttributeNotFound ==> r == Some(UpdateFailed(path, code))
  {
    match Classify(code)
    case Succeeded => None
    case AttributeMissing => Some(UpdateAttributeNotFound(path))
    case OtherCode(c) => Some(UpdateFailed(path, c))
  }

  /** `updateCred`: sends the credential with the path beside it. A non-200
      status fails before the reply is decoded or its code looked at. */
  function UpdateCred(path: string, c: Credential, update: UpdateRequest -> Exchange<UpdateReply>): (r: Option<Error>)
    ensures var x := update(UpdateRequest(c, path));
            r.None? <==> x.Received? && x.statusCode == StatusOK && x.decoded.Success? &&
                         x.decoded.value.result == ResultSuccess
    ensures var x := update(UpdateRequest(c, path));
            x.TransportFailed? ==> r == Some(RequestFailed(UpdateEndpoint, x.reason))
    ensures var x := update(UpdateRequest(c, path));
            x.Received? && x.statusCode != StatusOK ==> r == Some(UpdateStatus(x.status, x.body))
    ensures var x := update(UpdateRequest(c, path));
            x.Received? && x.statusCode == StatusOK && x.decoded.Failure? ==> r == Some(UpdateDecode(x.decoded.error))
    ensures var x := update(UpdateRequest(c, path));
            x.Received? && x.statusCode == StatusOK && x.decoded.Success? ==>
              r == CheckUpdated(path, x.decoded.value.result)
  {
    match update(UpdateRequest(c, path))
    case TransportFailed(reason) => Some(RequestFailed(UpdateEndpoint, reason))
    case Received(statusCode, status, body, decoded) =>
      if statusCode != StatusOK then Some(UpdateStatus(status, body))
      else
        match decoded
        case Failure(reason) => Some(UpdateDecode(reason))
        case Success(reply) => CheckUpdated(path, reply.result)
  }
}
