/**
 * The `OnRedirectToIdentityProviderForSignOut` hook: the identity provider's
 * logout address, with the post-logout target made absolute when it is a
 * path and appended as one escaped `returnTo` query parameter.
 */
module SignOutRedirect {
  import opened Wrappers
  import opened PercentEncoding
  import opened OidcOptions

  /** The inbound request's `Scheme`, `Host` and `PathBase`, as strings. */
  datatype Request = Request(scheme: string, host: string, pathBase: string)

  const ReturnToParameter: string := "&returnTo="

  /** `https://{domain}/v2/logout?client_id={clientId}`, both inserted verbatim. */
  function LogoutBase(domain: string, clientId: string): string {
    "https://" + domain + "/v2/logout?client_id=" + clientId
  }

  predicate IsNullOrEmpty(s: Option<string>) {
    s.None? || s.value == ""
  }

  predicate StartsWithSlash(s: string) {
    |s| > 0 && s[0] == '/'
  }

  /** The origin and path base that `Absolutise` puts in front of a path. */
  function RequestPrefix(request: Request): string {
    request.scheme + "://" + request.host + request.pathBase
  }

  /**
   * The post-logout URI, made absolute when it is a path. The URI is kept
   * whole at the end; it is changed exactly when it starts with `/`; and when
   * the scheme does not itself start with `/`, the result is no longer a path.
   */
  function Absolutise(request: Request, uri: string): (r: string)
    ensures |uri| <= |r| && r[|r| - |uri|..] == uri
    ensures r != uri <==> StartsWithSlash(uri)
    ensures (request.scheme == "" || request.scheme[0] != '/') ==> !StartsWithSlash(r)
  {
    if StartsWithSlash(uri) then
      var p := RequestPrefix(request);
      PrefixOfConcat(p, uri);
      assert |p| >= 3;
      p + uri
    else uri
  }

  /**
   * Absolutising twice is absolutising once: an absolutised URI is not a
   * path, so it is never prefixed again.
   */
  lemma AbsolutiseIdempotent(request: Request, uri: string)
    requires request.scheme == "" || request.scheme[0] != '/'
    ensures Absolutise(request, Absolutise(request, uri)) == Absolutise(request, uri)
  {
    var r := Absolutise(request, uri);
    assert !StartsWithSlash(r);
  }

  /**
   * The address the hook redirects to: it always starts with the provider's
   * logout endpoint for this client, and is exactly that endpoint when the
   * post-logout URI is null or empty.
   */
  function LogoutUri(domain: string, clientId: string, postLogoutUri: Option<string>, request: Request): (r: string)
    ensures var base := LogoutBase(domain, clientId); |base| <= |r| && r[..|base|] == base
    ensures IsNullOrEmpty(postLogoutUri) ==> r == LogoutBase(domain, clientId)
  {
    var logoutUri := LogoutBase(domain, clientId);
    if IsNullOrEmpty(postLogoutUri) then logoutUri
    else
      var tail := Escape(Absolutise(request, postLogoutUri.value));
      PrefixOfConcat(logoutUri + ReturnToParameter, tail);
      PrefixOfConcat(logoutUri, ReturnToParameter);
      logoutUri + ReturnToParameter + tail
  }

  lemma PrefixOfConcat(a: string, b: string)
    ensures (a + b)[..|a|] == a && (a + b)[|a|..] == b
  {
  }

  /**
   * What an identity provider reads back as the return target of a logout
   * address built for this domain and client: None when there is no
   * `returnTo` parameter or it does not decode.
   */
  function ReturnToOf(domain: string, clientId: string, uri: string): Option<string>
  {
    var head := LogoutBase(domain, clientId) + ReturnToParameter;
    if |head| <= |uri| && uri[..|head|] == head then Unescape(uri[|head|..]) else None
  }

  /**
   * The identity provider recovers exactly the absolutised post-logout URI,
   * and finds none when the hook was given a null or empty one.
   */
  lemma {:induction false} ReturnToRoundTrip(domain: string, clientId: string, postLogoutUri: Option<string>, request: Request)
    ensures ReturnToOf(domain, clientId, LogoutUri(domain, clientId, postLogoutUri, request)) ==
              if IsNullOrEmpty(postLogoutUri) then None else Some(Absolutise(request, postLogoutUri.value))
  {
    var r := LogoutUri(domain, clientId, postLogoutUri, request);
    var head := LogoutBase(domain, clientId) + ReturnToParameter;
    if !IsNullOrEmpty(postLogoutUri) {
      var v := Escape(Absolutise(request, postLogoutUri.value));
      assert r == head + v;
      assert r[..|head|] == head && r[|head|..] == v;
      UnescapeEscape(Absolutise(request, postLogoutUri.value));
    }
  }

  /**
   * A path is prefixed once with the request's origin and path base; any other
   * non-empty URI is carried unchanged, so an absolute one is not prefixed twice.
   */
  lemma ReturnToTarget(domain: string, clientId: string, uri: string, request: Request)
    requires uri != ""
    ensures ReturnToOf(domain, clientId, LogoutUri(domain, clientId, Some(uri), request)) ==
              Some(if uri[0] == '/' then RequestPrefix(request) + uri else uri)
  {
    ReturnToRoundTrip(domain, clientId, Some(uri), request);
  }

  /**
   * With a post-logout URI, everything after the base is one `returnTo`
   * parameter whose value holds only unreserved characters and `%HH`
   * triplets, hence no `&`, `=`, `?`, `/` or `#`.
   */
  lemma ReturnToIsOneParameter(domain: string, clientId: string, postLogoutUri: Option<string>, request: Request)
    requires !IsNullOrEmpty(postLogoutUri)
    ensures var r := LogoutUri(domain, clientId, postLogoutUri, request);
            var head := LogoutBase(domain, clientId) + ReturnToParameter;
            && |head| <= |r| && r[..|head|] == head
            && IsEscaped(r[|head|..])
            && forall i :: |head| <= i < |r| ==> r[i] !in "&=?/#"
  {
    var r := LogoutUri(domain, clientId, postLogoutUri, request);
    var head := LogoutBase(domain, clientId) + ReturnToParameter;
    var v := Escape(Absolutise(request, postLogoutUri.value));
    assert r == head + v;
    assert r[..|head|] == head && r[|head|..] == v;
    forall i | |head| <= i < |r| ensures r[i] !in "&=?/#" {
      assert r[i] == v[i - |head|];
    }
  }

  /**
   * When the domain and client id hold no `&`, the address has no `&` at all
   * without a post-logout URI, and exactly one, opening `returnTo`, with one.
   */
  lemma AmpersandOnlyBeforeReturnTo(domain: string, clientId: string, postLogoutUri: Option<string>, request: Request)
    requires '&' !in domain && '&' !in clientId
    ensures var r := LogoutUri(domain, clientId, postLogoutUri, request);
            var n := |LogoutBase(domain, clientId)|;
            if IsNullOrEmpty(postLogoutUri) then '&' !in r
            else n < |r| && r[n] == '&' && forall i :: 0 <= i < |r| && i != n ==> r[i] != '&'
  {
    var base := LogoutBase(domain, clientId);
    assert '&' !in base;
    if !IsNullOrEmpty(postLogoutUri) {
      var v := Escape(Absolutise(request, postLogoutUri.value));
      assert '&' !in v;
      OneAmpersand(base, v);
    }
  }

  /** Between two strings without `&`, the `returnTo` separator holds the only one. */
  lemma OneAmpersand(base: string, v: string)
    requires '&' !in base && '&' !in v
    ensures var r := base + ReturnToParameter + v;
            |base| < |r| && r[|base|] == '&' && forall i :: 0 <= i < |r| && i != |base| ==> r[i] != '&'
  {
    var r := base + ReturnToParameter + v;
    forall i | 0 <= i < |r| && i != |base| ensures r[i] != '&' {
      if i < |base| {
        assert r[i] == base[i];
      } else if i < |base| + |ReturnToParameter| {
        assert r[i] == ReturnToParameter[i - |base|];
      } else {
        assert r[i] == v[i - |base| - |ReturnToParameter|];
      }
    }
  }

  /** The logout address the hook of built options produces lives under their authority. */
  lemma LogoutUnderAuthority(o: Options, postLogoutUri: Option<string>, request: Request)
    requires FollowsPolicy(o)
    ensures var r := LogoutUri(o.onSignOut.domain, o.onSignOut.clientId, postLogoutUri, request);
            var base := o.authority + "/v2/logout?client_id=" + o.clientId;
            |base| <= |r| && r[..|base|] == base
  {
  }

  // ---------------------------------------------------------------------
  // The three return cases, on concrete values
  // ---------------------------------------------------------------------

  const ExampleRequest := Request("https", "app.example", "/app")

  lemma ExampleNoPostLogoutUri()
    ensures LogoutUri("acme.example", "abc123", None, ExampleRequest) == "https://" + "acme.example" + "/v2/logout?client_id=" + "abc123"
    ensures LogoutUri("acme.example", "abc123", Some(""), ExampleRequest) == "https://" + "acme.example" + "/v2/logout?client_id=" + "abc123"
  {
  }

  lemma EscapeSlashChar()
    ensures EscapeChar('/') == "%2F"
  {
    assert Utf8('/') == [0x2F];
    assert HexDigit(2) == '2' && HexDigit(15) == 'F';
    assert Triplets([0x2F]) == Triplet(0x2F) + Triplets([]);
  }

  lemma EscapeColonChar()
    ensures EscapeChar(':') == "%3A"
  {
    assert Utf8(':') == [0x3A];
    assert HexDigit(3) == '3' && HexDigit(10) == 'A';
    assert Triplets([0x3A]) == Triplet(0x3A) + Triplets([]);
  }

  lemma EscapeCons(c: char, s: string)
    ensures Escape([c] + s) == EscapeChar(c) + Escape(s)
  {
    assert ([c] + s)[0] == c && ([c] + s)[1..] == s;
  }

  lemma EscapeSeparator()
    ensures Escape("://") == "%3A%2F%2F"
  {
    EscapeSlashChar();
    EscapeColonChar();
    EscapeCons('/', []);
    assert "/" == ['/'] + [];
    EscapeCons('/', "/");
    assert "//" == ['/'] + "/";
    EscapeCons(':', "//");
    assert "://" == [':'] + "//";
  }

  /** Escaping a `/`-prefixed string of unreserved characters. */
  lemma EscapePathSegment(seg: string)
    requires forall i :: 0 <= i < |seg| ==> IsUnreserved(seg[i])
    ensures Escape("/" + seg) == "%2F" + seg
  {
    EscapeSlashChar();
    EscapeUnreserved(seg);
    EscapeCons('/', seg);
  }

  /** Escaping `scheme://host/segment`, all three of unreserved characters. */
  lemma EscapeUrlOneSegment(scheme: string, host: string, seg: string)
    requires forall i :: 0 <= i < |scheme| ==> IsUnreserved(scheme[i])
    requires forall i :: 0 <= i < |host| ==> IsUnreserved(host[i])
    requires forall i :: 0 <= i < |seg| ==> IsUnreserved(seg[i])
    ensures Escape(scheme + "://" + host + ("/" + seg)) == scheme + "%3A%2F%2F" + host + ("%2F" + seg)
  {
    EscapeSeparator();
    EscapeUnreserved(scheme);
    EscapeUnreserved(host);
    EscapePathSegment(seg);
    EscapeConcat(scheme, "://");
    EscapeConcat(scheme + "://", host);
    EscapeConcat(scheme + "://" + host, "/" + seg);
  }

  /** Escaping `scheme://host` followed by two path segments, all of unreserved characters. */
  lemma EscapeUrl(scheme: string, host: string, seg1: string, seg2: string)
    requires forall i :: 0 <= i < |scheme| ==> IsUnreserved(scheme[i])
    requires forall i :: 0 <= i < |host| ==> IsUnreserved(host[i])
    requires forall i :: 0 <= i < |seg1| ==> IsUnreserved(seg1[i])
    requires forall i :: 0 <= i < |seg2| ==> IsUnreserved(seg2[i])
    ensures Escape(scheme + "://" + host + ("/" + seg1) + ("/" + seg2)) ==
              scheme + "%3A%2F%2F" + host + ("%2F" + seg1) + ("%2F" + seg2)
  {
    EscapeSeparator();
    EscapeUnreserved(scheme);
    EscapeUnreserved(host);
    EscapePathSegment(seg1);
    EscapePathSegment(seg2);
    EscapeConcat(scheme, "://");
    EscapeConcat(scheme + "://", host);
    EscapeConcat(scheme + "://" + host, "/" + seg1);
    EscapeConcat(scheme + "://" + host + ("/" + seg1), "/" + seg2);
  }

  // The expected addresses are written as the concatenation of their parts.

  lemma ExampleRelativePostLogoutUri()
    ensures LogoutUri("acme.example", "abc123", Some("/after-logout"), ExampleRequest) ==
              LogoutBase("acme.example", "abc123") + "&returnTo=" +
              ("https" + "%3A%2F%2F" + "app.example" + ("%2F" + "app") + ("%2F" + "after-logout"))
  {
    var target := Absolutise(ExampleRequest, "/after-logout");
    assert target == "https" + "://" + "app.example" + ("/" + "app") + ("/" + "after-logout");
    EscapeUrl("https", "app.example", "app", "after-logout");
  }

  lemma ExampleAbsolutePostLogoutUri()
    ensures LogoutUri("acme.example", "abc123", Some("https" + "://" + "other.example" + ("/" + "done")), ExampleRequest) ==
              LogoutBase("acme.example", "abc123") + "&returnTo=" +
              ("https" + "%3A%2F%2F" + "other.example" + ("%2F" + "done"))
  {
    var uri := "https" + "://" + "other.example" + ("/" + "done");
    assert uri[0] == 'h';
    EscapeUrlOneSegment("https", "other.example", "done");
  }

  // ---------------------------------------------------------------------
  // The hook as the middleware runs it
  // ---------------------------------------------------------------------

  /** What the hook does to the response. */
  datatype ResponseAction = Redirect(location: string) | HandleResponse

  /** The `RedirectContext` the middleware hands to the hook. */
  class SignOutContext {
    const request: Request
    const redirectUri: Option<string>      // context.Properties.RedirectUri
    var actions: seq<ResponseAction>

    constructor (request: Request, redirectUri: Option<string>)
      ensures this.request == request && this.redirectUri == redirectUri && actions == []
    {
      this.request := request;
      this.redirectUri := redirectUri;
      actions := [];
    }
  }

  /** The body of `OnRedirectToIdentityProviderForSignOut` for a hook built by `Login`. */
  method OnRedirectToIdentityProviderForSignOut(hook: SignOutHook, context: SignOutContext)
    modifies context
    ensures context.actions == old(context.actions) +
              [Redirect(LogoutUri(hook.domain, hook.clientId, context.redirectUri, context.request)), HandleResponse]
  {
    var logoutUri := LogoutBase(hook.domain, hook.clientId);
    var postLogoutUri := context.redirectUri;
    if !IsNullOrEmpty(postLogoutUri) {
      var target := postLogoutUri.value;
      if StartsWithSlash(target) {
        var request := context.request;
        target := RequestPrefix(request) + target;
      }
      assert target == Absolutise(context.request, postLogoutUri.value);
      logoutUri := logoutUri + ReturnToParameter + Escape(target);
    }
    context.actions := context.actions + [Redirect(logoutUri)];
    context.actions := context.actions + [HandleResponse];
  }
}
