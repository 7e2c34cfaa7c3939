/** `edit <path>`: retrieve the credential, check its result code, decode the
    YAML blob in Values[0].Value, hand it to the editor, write the edited bytes
    back re-encoded into Values[0].Value, and send the update. The editor
    session (the temporary file it works on, the editor process, reading the
    file back) is an abstract function from bytes to edited bytes or a
    failure; creating the temporary file is an abstract step that may fail. */
module Edit {
  import opened Wrappers
  import opened Base64
  import opened Api

  /** `updated` is `original` with only Values[0].Value replaced. */
  predicate DiffersOnlyInFirstValue(original: Credential, updated: Credential) {
    |original.values| > 0 && |updated.values| == |original.values| &&
    updated.classname == original.classname &&
    updated.contact == original.contact &&
    updated.friendlyName == original.friendlyName &&
    updated.result == original.result &&
    updated.values[0].name == original.values[0].name &&
    updated.values[0].kind == original.values[0].kind &&
    updated.values[1..] == original.values[1..]
  }

  /** The blob the workflow edits, when there is one and it decodes. */
  function StoredBlob(c: Credential): (blob: Option<Bytes>)
    ensures blob.Some? <==> |c.values| > 0 && Decode(c.values[0].value).Some?
  {
    if |c.values| == 0 then None else Decode(c.values[0].value)
  }

  /** A credential whose first value holds the base64 of some bytes gives
      back exactly those bytes, so what the workflow stores it reads back. */
  lemma StoredBlobRecovers(c: Credential, b: Bytes)
    requires |c.values| > 0 && c.values[0].value == Encode(b)
    ensures StoredBlob(c) == Some(b)
  {
    RoundTrip(b);
  }

  /** `editConfigInCred`. Every step can end the workflow with its own error;
      the update is sent exactly when all the steps before it succeeded.
      `tempCreated` and `tempExists` are the life of the temporary file:
      created only once the blob has decoded, and gone again on every
      return, as the deferred removal in the source guarantees. */
  method EditConfigInCred(path: string,
                          retrieve: string -> Exchange<Credential>,
                          createTempFailure: Option<string>,
                          editor: Bytes -> Result<Bytes, string>,
                          update: UpdateRequest -> Exchange<UpdateReply>)
    returns (err: Option<Error>, sent: Option<UpdateRequest>, ghost tempCreated: bool, ghost tempExists: bool)
    // Fetching: a failed retrieval is the error, and nothing else happens.
    ensures GetCred(path, retrieve).Failure? ==>
              err == Some(GetCred(path, retrieve).error) && sent.None? && !tempCreated
    // Validating: the result code is checked first, then the Values list.
    ensures GetCred(path, retrieve).Success? && GetCred(path, retrieve).value.result != ResultSuccess ==>
              err == CheckFetched(path, GetCred(path, retrieve).value.result) && sent.None? && !tempCreated
    ensures GetCred(path, retrieve).Success? && GetCred(path, retrieve).value.result == ResultSuccess &&
            |GetCred(path, retrieve).value.values| == 0 ==>
              err == Some(NoValues(path)) && sent.None? && !tempCreated
    // Decoding: malformed base64 stops the workflow before the editor runs.
    ensures GetCred(path, retrieve).Success? && GetCred(path, retrieve).value.result == ResultSuccess &&
            |GetCred(path, retrieve).value.values| > 0 && StoredBlob(GetCred(path, retrieve).value).None? ==>
              err == Some(InvalidBase64) && sent.None? && !tempCreated
    // Editing: a temporary file that cannot be created, or an editor session that fails.
    ensures GetCred(path, retrieve).Success? && GetCred(path, retrieve).value.result == ResultSuccess &&
            StoredBlob(GetCred(path, retrieve).value).Some? ==>
              (tempCreated <==> createTempFailure.None?) &&
              (createTempFailure.Some? ==> err == Some(LocalIo(createTempFailure.value)) && sent.None?) &&
              (createTempFailure.None? && editor(StoredBlob(GetCred(path, retrieve).value).value).Failure? ==>
                 err == Some(LocalIo(editor(StoredBlob(GetCred(path, retrieve).value).value).error)) && sent.None?)
    // Updating: sent exactly when every earlier step succeeded ...
    ensures sent.Some? <==>
              GetCred(path, retrieve).Success? && GetCred(path, retrieve).value.result == ResultSuccess &&
              StoredBlob(GetCred(path, retrieve).value).Some? && createTempFailure.None? &&
              editor(StoredBlob(GetCred(path, retrieve).value).value).Success?
    // ... and then it is the retrieved credential, for the same path, with
    // only Values[0].Value changed, to the base64 text of the edited bytes.
    ensures sent.Some? ==>
              var original := GetCred(path, retrieve).value;
              var edited := editor(StoredBlob(original).value).value;
              sent.value.credentialPath == path &&
              DiffersOnlyInFirstValue(original, sent.value.credential) &&
              sent.value.credential.values[0].value == Encode(edited) &&
              Decode(sent.value.credential.values[0].value) == Some(edited) &&
              err == (match UpdateCred(path, sent.value.credential, update)
                      case None => None
                      case Some(e) => Some(Patching(e)))
    // No update is ever sent on a failed step; no failure goes unreported.
    ensures sent.None? ==> err.Some?
    ensures !tempExists
  {
    sent, tempCreated, tempExists := None, false, false;
    var got := GetCred(path, retrieve);
    if got.Failure? {
      return Some(got.error), sent, tempCreated, tempExists;
    }
    var credResp := got.value;
    var fetchError := CheckFetched(path, credResp.result);
    if fetchError.Some? {
      return fetchError, sent, tempCreated, tempExists;
    }
    if |credResp.values| == 0 {
      return Some(NoValues(path)), sent, tempCreated, tempExists;
    }
    var yamlBlob := Decode(credResp.values[0].value);
    if yamlBlob.None? {
      return Some(InvalidBase64), sent, tempCreated, tempExists;
    }
    if createTempFailure.Some? {
      return Some(LocalIo(createTempFailure.value)), sent, tempCreated, tempExists;
    }
    tempCreated, tempExists := true, true;
    var edited := editor(yamlBlob.value);
    if edited.Failure? {
      err := Some(LocalIo(edited.error));
    } else {
      var entry := credResp.values[0].(value := Encode(edited.value));
      credResp := credResp.(values := credResp.values[0 := entry]);
      RoundTrip(edited.value);
      sent := Some(UpdateRequest(credResp, path));
      var updateError := UpdateCred(path, credResp, update);
      err := if updateError.Some? then Some(Patching(updateError.value)) else None;
    }
    tempExists := false; // the deferred os.Remove
  }

  // ---------------------------------------------------------------------
  // Workflows end to end

  /** An editor that changes nothing still leads to an update, and the value
      sent decodes to exactly the blob that was retrieved. */
  method EditWithoutChanges(path: string,
                            retrieve: string -> Exchange<Credential>,
                            update: UpdateRequest -> Exchange<UpdateReply>)
    returns (err: Option<Error>, sent: Option<UpdateRequest>)
    requires GetCred(path, retrieve).Success?
    requires GetCred(path, retrieve).value.result == ResultSuccess
    requires StoredBlob(GetCred(path, retrieve).value).Some?
    ensures sent.Some?
    ensures StoredBlob(sent.value.credential) == StoredBlob(GetCred(path, retrieve).value)
  {
    ghost var created, exists_;
    err, sent, created, exists_ := EditConfigInCred(path, retrieve, None, blob => Success(blob), update);
  }

  /** The bytes of the YAML text "key: value". */
  const KeyValueYaml: Bytes := [107, 101, 121, 58, 32, 118, 97, 108, 117, 101]

  /** A credential holding base64("key: value"), an editor that changes
      nothing and an update that succeeds: no error, and the value sent
      decodes to exactly "key: value". */
  method UnchangedKeyValue() returns (err: Option<Error>, sent: Option<UpdateRequest>)
    ensures err.None? && sent.Some? && |sent.value.credential.values| == 1
    ensures Decode(sent.value.credential.values[0].value) == Some(KeyValueYaml)
  {
    var path := @"\VED\Policy\creds\foo";
    var stored := Credential("Generic Credential", [], "foo", ResultSuccess,
                             [ValueEntry("Config", "std", Encode(KeyValueYaml))]);
    RoundTrip(KeyValueYaml);
    ghost var created, exists_;
    err, sent, created, exists_ := EditConfigInCred(
      path,
      p => Received(StatusOK, "200 OK", "", Success(stored)),
      None,
      blob => Success(blob),
      req => Received(StatusOK, "200 OK", "", Success(UpdateReply(ResultSuccess))));
  }

  /** A retrieval whose result code is AttributeNotFound: the error names the
      path in single quotes, and no update is sent. */
  method MissingAttribute(resultString: int -> string) returns (err: Option<Error>, sent: Option<UpdateRequest>)
    ensures sent.None? && err.Some?
    ensures Message(err.value, resultString) == @"attribute not found: '\VED\Policy\creds\foo'"
  {
    var path := @"\VED\Policy\creds\foo";
    var stored := Credential("", [], "", ResultAttributeNotFound, []);
    ghost var created, exists_;
    err, sent, created, exists_ := EditConfigInCred(
      path,
      p => Received(StatusOK, "200 OK", "", Success(stored)),
      None,
      blob => Success(blob),
      req => Received(StatusOK, "200 OK", "", Success(UpdateReply(ResultSuccess))));
  }
}
