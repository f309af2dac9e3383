/**
 * The Cloud Foundry service bindings as `Login` reads them, and the choice of
 * the single identity service by LINQ `SingleOrDefault`.
 */
module ServiceCatalog {
  import opened Wrappers

  /** One bound service: its label and its credentials dictionary. */
  datatype ServiceBinding = ServiceBinding(serviceLabel: string, credentials: map<string, string>)

  /** What `Login` takes out of the identity service's credentials. */
  datatype Credentials = Credentials(domain: string, clientId: string, clientSecret: string)

  /** The exception `Login` would raise instead of finding credentials. */
  datatype SelectError =
    | NoSsoService                  // SingleOrDefault gives null; the next dereference throws
    | AmbiguousSsoService           // SingleOrDefault throws on a second match
    | MissingCredential(key: string) // the dictionary indexer throws KeyNotFoundException

  const SsoLabel: string := "p-identity"
  const DomainKey: string := "auth_domain"
  const ClientIdKey: string := "client_id"
  const ClientSecretKey: string := "client_secret"

  predicate IsSso(b: ServiceBinding) {
    b.serviceLabel == SsoLabel
  }

  /** The positions of the bindings labelled `p-identity`, in ascending order. */
  function SsoPositions(services: seq<ServiceBinding>): seq<int>
  {
    if services == [] then []
    else
      var last := |services| - 1;
      SsoPositions(services[..last]) + (if IsSso(services[last]) then [last] else [])
  }

  predicate Ascending(ks: seq<int>) {
    forall i, j :: 0 <= i < j < |ks| ==> ks[i] < ks[j]
  }

  /** `SsoPositions` lists every matching position and only those. */
  lemma {:induction false} SsoPositionsMembers(services: seq<ServiceBinding>)
    ensures forall k :: k in SsoPositions(services) <==> 0 <= k < |services| && IsSso(services[k])
  {
    if services != [] {
      var last := |services| - 1;
      var prefix := services[..last];
      SsoPositionsMembers(prefix);
      assert forall k :: 0 <= k < last ==> prefix[k] == services[k];
    }
  }

  /** `SsoPositions` lists each position once, in ascending order. */
  lemma {:induction false} SsoPositionsAscending(services: seq<ServiceBinding>)
    ensures Ascending(SsoPositions(services))
  {
    if services != [] {
      var last := |services| - 1;
      var prefix := services[..last];
      SsoPositionsAscending(prefix);
      SsoPositionsMembers(prefix);
      var ks := SsoPositions(prefix);
      var all := SsoPositions(services);
      assert all == ks + (if IsSso(services[last]) then [last] else []);
      forall i, j | 0 <= i < j < |all| ensures all[i] < all[j] {
        if j >= |ks| {
          assert all[i] == ks[i] && ks[i] in ks;
        }
      }
    }
  }

  /** With two or more listed positions, the first two are two different identity bindings. */
  lemma SsoPositionsFirstTwo(services: seq<ServiceBinding>)
    ensures var ks := SsoPositions(services);
            |ks| >= 2 ==>
              && 0 <= ks[0] < ks[1] < |services|
              && IsSso(services[ks[0]]) && IsSso(services[ks[1]])
  {
    var ks := SsoPositions(services);
    SsoPositionsMembers(services);
    SsoPositionsAscending(services);
    if |ks| >= 2 {
      assert ks[0] in ks && ks[1] in ks;
    }
  }

  /** Reads the three credential keys in the order the source reads them. */
  function ReadCredentials(creds: map<string, string>): (r: Result<Credentials, SelectError>)
    ensures r.Success? <==> DomainKey in creds && ClientIdKey in creds && ClientSecretKey in creds
    ensures r.Success? ==> r.value == Credentials(creds[DomainKey], creds[ClientIdKey], creds[ClientSecretKey])
    ensures r.Failure? ==> r.error.MissingCredential? && r.error.key !in creds
  {
    if DomainKey !in creds then Failure(MissingCredential(DomainKey))
    else if ClientIdKey !in creds then Failure(MissingCredential(ClientIdKey))
    else if ClientSecretKey !in creds then Failure(MissingCredential(ClientSecretKey))
    else Success(Credentials(creds[DomainKey], creds[ClientIdKey], creds[ClientSecretKey]))
  }

  predicate HasAllKeys(b: ServiceBinding) {
    DomainKey in b.credentials && ClientIdKey in b.credentials && ClientSecretKey in b.credentials
  }

  /** Position k is the one and only binding labelled `p-identity`. */
  predicate OnlySsoAt(services: seq<ServiceBinding>, k: int) {
    && 0 <= k < |services|
    && IsSso(services[k])
    && forall j :: 0 <= j < |services| && IsSso(services[j]) ==> j == k
  }

  /** There is one and only one identity binding exactly when one position is listed, and then it is that one. */
  lemma {:induction false} SsoSingleton(services: seq<ServiceBinding>)
    ensures (exists k :: OnlySsoAt(services, k)) <==> |SsoPositions(services)| == 1
    ensures forall k :: OnlySsoAt(services, k) ==> SsoPositions(services) == [k]
  {
    var ks := SsoPositions(services);
    SsoPositionsMembers(services);
    SsoPositionsFirstTwo(services);
    if |ks| == 1 {
      var k := ks[0];
      assert k in ks;
      forall j | 0 <= j < |services| && IsSso(services[j]) ensures j == k {
        assert j in ks;
      }
      assert OnlySsoAt(services, k);
    }
    forall k | OnlySsoAt(services, k) ensures ks == [k] {
      assert k in ks;
      forall x | x in ks ensures x == k {
      }
      assert ks[0] in ks;
    }
  }

  /**
   * `servicesList.SingleOrDefault(s => s.Label == "p-identity")` and the three
   * indexer reads. Selection succeeds exactly when one binding is labelled
   * `p-identity` and carries all three keys; with one such binding, it reads
   * that binding's credentials as `ReadCredentials` does.
   */
  function SelectSsoCredentials(services: seq<ServiceBinding>): (r: Result<Credentials, SelectError>)
    ensures r.Success? <==> exists k :: OnlySsoAt(services, k) && HasAllKeys(services[k])
    ensures forall k :: OnlySsoAt(services, k) ==> r == ReadCredentials(services[k].credentials)
  {
    var ks := SsoPositions(services);
    SsoPositionsMembers(services);
    SsoSingleton(services);
    if |ks| == 0 then Failure(NoSsoService)
    else if |ks| > 1 then Failure(AmbiguousSsoService)
    else
      assert ks[0] in ks;
      assert OnlySsoAt(services, ks[0]);
      ReadCredentials(services[ks[0]].credentials)
  }

  /** No binding labelled `p-identity`: the null dereference. */
  lemma SelectNoServiceIff(services: seq<ServiceBinding>)
    ensures SelectSsoCredentials(services) == Failure(NoSsoService) <==>
              forall k :: 0 <= k < |services| ==> !IsSso(services[k])
  {
    var ks := SsoPositions(services);
    SsoPositionsMembers(services);
    if |ks| > 0 {
      assert ks[0] in ks;
    }
  }

  /** Two or more bindings labelled `p-identity`: SingleOrDefault refuses to choose. */
  lemma SelectAmbiguousIff(services: seq<ServiceBinding>)
    ensures SelectSsoCredentials(services) == Failure(AmbiguousSsoService) <==>
              exists i, j :: 0 <= i < j < |services| && IsSso(services[i]) && IsSso(services[j])
  {
    var ks := SsoPositions(services);
    SelectAmbiguousOnPositions(services);
    SsoPositionsMembers(services);
    SsoPositionsFirstTwo(services);
    if exists i, j :: 0 <= i < j < |services| && IsSso(services[i]) && IsSso(services[j]) {
      var i, j :| 0 <= i < j < |services| && IsSso(services[i]) && IsSso(services[j]);
      assert i in ks && j in ks;
      var a :| 0 <= a < |ks| && ks[a] == i;
      var b :| 0 <= b < |ks| && ks[b] == j;
      assert a != b;
    }
  }

  /** Selection is ambiguous exactly when more than one position is listed. */
  lemma SelectAmbiguousOnPositions(services: seq<ServiceBinding>)
    ensures SelectSsoCredentials(services) == Failure(AmbiguousSsoService) <==> |SsoPositions(services)| > 1
  {
    var ks := SsoPositions(services);
    SsoPositionsMembers(services);
    if |ks| == 1 {
      assert ks[0] in ks;
      assert ReadCredentials(services[ks[0]].credentials) != Failure(AmbiguousSsoService);
    }
  }

  /** The single identity binding lacks a key: the first missing key in reading order is reported. */
  lemma SelectMissingKey(services: seq<ServiceBinding>, k: int)
    requires OnlySsoAt(services, k) && !HasAllKeys(services[k])
    ensures var c := services[k].credentials;
            SelectSsoCredentials(services) == Failure(MissingCredential(
              if DomainKey !in c then DomainKey else if ClientIdKey !in c then ClientIdKey else ClientSecretKey))
  {
  }
}
