/**
 * The `OpenIdConnectOptions` object that `Login` builds from the resolved
 * credentials, with the fixed policy values the controller sets.
 */
module OidcOptions {
  import opened Wrappers
  import opened ServiceCatalog

  const ResponseTypeCode: string := "code"
  const CallbackPath: string := "/callback"
  const Auth0Issuer: string := "Auth0"
  const HttpsPrefix: string := "https://"

  /**
   * The sign-out hook set in `options.Events`: a closure over the domain and
   * client id that `Login` read, which is all it uses of the credentials.
   */
  datatype SignOutHook = LogoutRedirectHook(domain: string, clientId: string)

  datatype Options = Options(
    authority: string,
    clientId: string,
    clientSecret: string,
    responseType: string,
    callbackPath: string,
    claimsIssuer: string,
    onSignOut: SignOutHook)

  /** The object initialiser of `Login` together with its `Events` assignment. */
  function Build(c: Credentials): (o: Options)
    ensures o.authority == HttpsPrefix + c.domain
    ensures o.clientId == c.clientId && o.clientSecret == c.clientSecret
    ensures o.responseType == "code" && o.callbackPath == "/callback" && o.claimsIssuer == "Auth0"
    ensures o.onSignOut == LogoutRedirectHook(c.domain, c.clientId)
  {
    Options(HttpsPrefix + c.domain, c.clientId, c.clientSecret, ResponseTypeCode, CallbackPath, Auth0Issuer,
            LogoutRedirectHook(c.domain, c.clientId))
  }

  /** The host part of an `https://` authority. */
  function AuthorityDomain(authority: string): (r: Option<string>)
    ensures r.Some? ==> authority == HttpsPrefix + r.value
  {
    if |authority| >= |HttpsPrefix| && authority[..|HttpsPrefix|] == HttpsPrefix
    then Some(authority[|HttpsPrefix|..])
    else None
  }

  /** The fixed policy values every built options object carries. */
  predicate FollowsPolicy(o: Options) {
    && o.responseType == ResponseTypeCode
    && o.callbackPath == CallbackPath
    && o.claimsIssuer == Auth0Issuer
    && AuthorityDomain(o.authority) == Some(o.onSignOut.domain)
    && o.onSignOut.clientId == o.clientId
  }

  /** The credentials an options object was built from, read back from it. */
  function CredentialsOf(o: Options): (r: Option<Credentials>)
  {
    var domain :- AuthorityDomain(o.authority);
    Some(Credentials(domain, o.clientId, o.clientSecret))
  }

  /**
   * Building loses none of the credentials, and the hook's domain and client
   * id are those of the authority and the client.
   */
  lemma BuildRoundTrip(c: Credentials)
    ensures CredentialsOf(Build(c)) == Some(c)
    ensures FollowsPolicy(Build(c))
  {
    var a := Build(c).authority;
    assert a[..|HttpsPrefix|] == HttpsPrefix && a[|HttpsPrefix|..] == c.domain;
  }

  /** Different credentials give different options. */
  lemma BuildInjective(c: Credentials, d: Credentials)
    requires Build(c) == Build(d)
    ensures c == d
  {
    BuildRoundTrip(c);
    BuildRoundTrip(d);
  }
}
