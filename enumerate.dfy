/** `ls`: one Config/Enumerate call under the policy root, then the paths of
    the objects whose type name mentions "Generic Credential". */
module Enumerate {
  import opened Wrappers
  import opened Strings
  import opened Api

  datatype CatalogObject = CatalogObject(absoluteGuid: string, dn: string, guid: string, id: int,
                                         name: string, parent: string, revision: int, typeName: string)

  /** The decoded reply; its `result` field is never consulted. */
  datatype ObjectsResp = ObjectsResp(objects: seq<CatalogObject>, result: int)

  datatype EnumerateRequest = EnumerateRequest(objectDn: string, pattern: string, recursive: bool)

  /** The one request `ls` sends: everything under the policy root, recursively. */
  const PolicyRootRequest: EnumerateRequest := EnumerateRequest(@"\VED\Policy", "", true)

  const GenericCredentialPhrase: string := "Generic Credential"

  // The platform's type names.
  const TypeNameX509ServerCert: string := "X509 Server Certificate"
  const TypeNamePolicy: string := "Policy"
  const TypeNameGoogleCred: string := "Google Credential"
  const TypeNameGenericCred: string := "Generic Credential"
  const TypeNameUsernamePasswordCred: string := "Username Password Credential"

  /** The filter's test: a substring match, not equality with TypeNameGenericCred. */
  predicate IsGenericCredential(o: CatalogObject) {
    Contains(o.typeName, GenericCredentialPhrase)
  }

  /** The paths the filter keeps, in response order (built from the back, as
      the loop appends). */
  function GenericCredentialPaths(objects: seq<CatalogObject>): (paths: seq<string>)
    decreases |objects|
  {
    if objects == [] then []
    else
      var last := objects[|objects| - 1];
      GenericCredentialPaths(objects[..|objects| - 1]) + (if IsGenericCredential(last) then [last.dn] else [])
  }

  /** `listObjects`. The reply is decoded before its status is looked at, so
      a body that does not decode is reported even on a non-200 status. */
  method ListObjects(enumerate: EnumerateRequest -> Exchange<ObjectsResp>) returns (r: Result<seq<string>, Error>)
    ensures enumerate(PolicyRootRequest).TransportFailed? ==>
              r == Failure(RequestFailed(EnumerateEndpoint, enumerate(PolicyRootRequest).reason))
    ensures enumerate(PolicyRootRequest).Received? && enumerate(PolicyRootRequest).decoded.Failure? ==>
              r == Failure(ListDecode(enumerate(PolicyRootRequest).decoded.error))
    ensures enumerate(PolicyRootRequest).Received? && enumerate(PolicyRootRequest).decoded.Success? &&
            enumerate(PolicyRootRequest).statusCode != StatusOK ==>
              r == Failure(ListStatus(enumerate(PolicyRootRequest).status))
    ensures r.Success? <==> enumerate(PolicyRootRequest).Received? && enumerate(PolicyRootRequest).decoded.Success? &&
                            enumerate(PolicyRootRequest).statusCode == StatusOK
    ensures r.Success? ==> r.value == GenericCredentialPaths(enumerate(PolicyRootRequest).decoded.value.objects)
  {
    var reply := enumerate(PolicyRootRequest);
    if reply.TransportFailed? {
      return Failure(RequestFailed(EnumerateEndpoint, reply.reason));
    }
    if reply.decoded.Failure? {
      return Failure(ListDecode(reply.decoded.error));
    }
    var creds := reply.decoded.value;
    if reply.statusCode != StatusOK {
      return Failure(ListStatus(reply.status));
    }
    var credPaths: seq<string> := [];
    var i := 0;
    while i < |creds.objects|
      invariant 0 <= i <= |creds.objects|
      invariant credPaths == GenericCredentialPaths(creds.objects[..i])
    {
      var cred := creds.objects[i];
      assert creds.objects[..i + 1][..i] == creds.objects[..i];
      if !Contains(cred.typeName, GenericCredentialPhrase) {
        i := i + 1;
        continue;
      }
      credPaths := credPaths + [cred.dn];
      i := i + 1;
    }
    assert creds.objects[..i] == creds.objects;
    return Success(credPaths);
  }

  // ---------------------------------------------------------------------
  // What the filter keeps

  /** Never more paths than objects. */
  lemma {:induction false} PathsNoLonger(objects: seq<CatalogObject>)
    ensures |GenericCredentialPaths(objects)| <= |objects|
    decreases |objects|
  {
    if objects != [] {
      PathsNoLonger(objects[..|objects| - 1]);
    }
  }

  /** The indices of the kept objects, in increasing order. */
  function KeptIndices(objects: seq<CatalogObject>): (ks: seq<nat>)
    ensures forall k :: 0 <= k < |ks| ==> ks[k] < |objects|
    decreases |objects|
  {
    if objects == [] then []
    else
      var n := |objects| - 1;
      KeptIndices(objects[..n]) + (if IsGenericCredential(objects[n]) then [n] else [])
  }

  /** The kept indices are strictly increasing, and an index is among them
      exactly when its object's type name contains the phrase. */
  lemma {:induction false} KeptIndicesExact(objects: seq<CatalogObject>)
    ensures var ks := KeptIndices(objects);
            (forall k, l :: 0 <= k < l < |ks| ==> ks[k] < ks[l]) &&
            (forall i :: 0 <= i < |objects| ==> (i in ks <==> IsGenericCredential(objects[i])))
    decreases |objects|
  {
    if objects != [] {
      var n := |objects| - 1;
      KeptIndicesExact(objects[..n]);
      assert forall i :: 0 <= i < n ==> objects[..n][i] == objects[i];
    }
  }

  /** The filter's output, entry by entry, is the path of the kept object at
      the same position of KeptIndices. */
  lemma {:induction false} PathsAtKeptIndices(objects: seq<CatalogObject>)
    ensures var ks, paths := KeptIndices(objects), GenericCredentialPaths(objects);
            |paths| == |ks| && forall k :: 0 <= k < |ks| ==> paths[k] == objects[ks[k]].dn
    decreases |objects|
  {
    if objects != [] {
      var n := |objects| - 1;
      PathsAtKeptIndices(objects[..n]);
      var ks0 := KeptIndices(objects[..n]);
      assert forall k :: 0 <= k < |ks0| ==> objects[..n][ks0[k]] == objects[ks0[k]];
    }
  }

  /** Together: `ls` prints exactly the paths of the objects whose type name
      contains the phrase, in response order. */
  lemma PathsAreKeptObjects(objects: seq<CatalogObject>)
    ensures var ks, paths := KeptIndices(objects), GenericCredentialPaths(objects);
            |paths| == |ks| &&
            (forall k :: 0 <= k < |ks| ==> paths[k] == objects[ks[k]].dn) &&
            (forall k, l :: 0 <= k < l < |ks| ==> ks[k] < ks[l]) &&
            (forall i :: 0 <= i < |objects| ==> (i in ks <==> IsGenericCredential(objects[i])))
  {
    KeptIndicesExact(objects);
    PathsAtKeptIndices(objects);
  }

  /** An object whose type name merely contains the phrase is kept. */
  lemma KeepsExtendedTypeName(o: CatalogObject, suffix: string)
    requires o.typeName == GenericCredentialPhrase + suffix
    ensures GenericCredentialPaths([o]) == [o.dn]
  {
    ContainsPrefixed(GenericCredentialPhrase, suffix);
    assert [o][..0] == [];
  }

  /** The platform's other type names are dropped; the generic one is kept. */
  lemma GenericCredKept()
    ensures Contains(TypeNameGenericCred, GenericCredentialPhrase)
  {
    ContainsPrefixed(GenericCredentialPhrase, "");
    assert GenericCredentialPhrase + "" == TypeNameGenericCred;
  }

  lemma PolicyDropped()
    ensures !Contains(TypeNamePolicy, GenericCredentialPhrase)
  {
    ShorterNeverContains(TypeNamePolicy, GenericCredentialPhrase);
  }

  lemma GoogleCredDropped()
    ensures !Contains(TypeNameGoogleCred, GenericCredentialPhrase)
  {
    ShorterNeverContains(TypeNameGoogleCred, GenericCredentialPhrase);
  }

  lemma X509ServerCertDropped()
    ensures !Contains(TypeNameX509ServerCert, GenericCredentialPhrase)
  {
    MissingFirstChar(TypeNameX509ServerCert, GenericCredentialPhrase);
  }

  lemma UsernamePasswordCredDropped()
    ensures !Contains(TypeNameUsernamePasswordCred, GenericCredentialPhrase)
  {
    MissingFirstChar(TypeNameUsernamePasswordCred, GenericCredentialPhrase);
  }

  /** A store holding one generic credential and one policy lists only the
      credential's path. */
  lemma OneCredentialOnePolicy()
    ensures var cred := CatalogObject("", @"\VED\Policy\creds\foo", "", 1, "foo", @"\VED\Policy\creds", 1, TypeNameGenericCred);
            var policy := CatalogObject("", @"\VED\Policy\sub", "", 2, "sub", @"\VED\Policy", 1, TypeNamePolicy);
            GenericCredentialPaths([cred, policy]) == [@"\VED\Policy\creds\foo"]
  {
    GenericCredKept();
    PolicyDropped();
    var cred := CatalogObject("", @"\VED\Policy\creds\foo", "", 1, "foo", @"\VED\Policy\creds", 1, TypeNameGenericCred);
    var policy := CatalogObject("", @"\VED\Policy\sub", "", 2, "sub", @"\VED\Policy", 1, TypeNamePolicy);
    assert IsGenericCredential(cred) && !IsGenericCredential(policy);
    assert [cred][..0] == [];
    assert GenericCredentialPaths([cred]) == [cred.dn];
    assert [cred, policy][..1] == [cred];
  }
}
