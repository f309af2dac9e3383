# OIDC login/logout handshake of the SSO-tile front-end

This project models the core of `AccountController` in the SSO-tile
application of pcf-dotnet-security. The controller establishes and ends an
OpenID Connect session against an identity provider whose credentials come
from the Cloud Foundry service bindings at request time. The model covers:

- **Service selection** (`ServiceCatalog`). The one binding labelled
  `p-identity` is chosen as LINQ `SingleOrDefault` chooses it. Then
  `auth_domain`, `client_id` and `client_secret` are read from its
  credentials. The three ways this throws are a `Result` error: no binding,
  more than one binding, or a missing key.
- **Options construction** (`OidcOptions`). The `OpenIdConnectOptions`
  record has authority `https://{domain}`, response type `code`, callback
  path `/callback` and claims issuer `Auth0`. It also carries the sign-out
  hook, which closes over the domain and client id.
- **Sign-out redirect** (`SignOutRedirect`, `PercentEncoding`). The hook
  builds `https://{domain}/v2/logout?client_id={clientId}`. A non-empty
  post-logout URI is made absolute when it starts with `/`. It is then
  escaped as `Uri.EscapeDataString` does (UTF-8, then `%HH` with upper-case
  hex for everything outside the unreserved set of section 2.3 of RFC 3986)
  and appended as `&returnTo=`. The hook issues one redirect and marks the
  response handled. An independent decoder, `Unescape`, shows that the
  identity provider recovers exactly the absolutised URI.
- **Options cache** (`OptionsCache`). `IOptionsMonitorCache.TryAdd` is
  add-if-absent. Once `Auth0` is stored, later Logins leave it untouched.
- **Effect ordering** (`AccountController`). `Login` and `Logout` append
  the framework calls they make to a log, in order. `Login` post-configures,
  offers the options to the cache, then challenges `Auth0` with `returnUrl`
  (default `/`). `Logout` signs out of `Auth0` with the Home/Index URL, then
  of the cookie scheme.

One might expect a later Login to replace the registered options. The code
calls `TryAdd`, which never replaces a stored entry, and the model follows
the code. `OptionsCache.SecondRegistrationIgnored` shows this on two
registrations.

Inputs that come from outside the controller are parameters. These are the
service list, the request's scheme, host and path base, the sign-out
properties' `RedirectUri`, and the result of `Url.Action("Index", "Home")`.

## Model

| member | source | states |
|---|---|---|
| `ServiceCatalog.ReadCredentials` | src/Pcf.Dotnet.Core.Security.SsoTile/Controllers/AccountController.cs:36-38 | Reading succeeds iff all three keys are present, and then returns their values verbatim. A failure names a key that is absent. |
| `ServiceCatalog.SsoPositionsMembers` | src/Pcf.Dotnet.Core.Security.SsoTile/Controllers/AccountController.cs:34 | The positions the `p-identity` predicate matches are exactly the bindings labelled `p-identity`. |
| `ServiceCatalog.SsoPositionsAscending` | src/Pcf.Dotnet.Core.Security.SsoTile/Controllers/AccountController.cs:34 | Each matching position is counted once, so two equal bindings count as two matches. |
| `ServiceCatalog.SsoPositionsFirstTwo` | src/Pcf.Dotnet.Core.Security.SsoTile/Controllers/AccountController.cs:34 | With two or more matches listed, the first two positions are different bindings, in order, both labelled `p-identity`: the second match that makes `SingleOrDefault` throw. |
| `ServiceCatalog.SelectSsoCredentials` | src/Pcf.Dotnet.Core.Security.SsoTile/Controllers/AccountController.cs:33-38 | Selection succeeds iff exactly one binding is labelled `p-identity` and it has all three keys. With exactly one such binding, the result is what reading its credentials gives: its domain, client id and secret verbatim, or the first missing key. |
| `ServiceCatalog.SsoSingleton` | src/Pcf.Dotnet.Core.Security.SsoTile/Controllers/AccountController.cs:34 | There is exactly one `p-identity` binding iff exactly one position matches, and then that position is the only one listed. |
| `ServiceCatalog.SelectNoServiceIff` | src/Pcf.Dotnet.Core.Security.SsoTile/Controllers/AccountController.cs:34-36 | The no-service error (the null dereference) happens iff no binding is labelled `p-identity`. |
| `ServiceCatalog.SelectAmbiguousIff` | src/Pcf.Dotnet.Core.Security.SsoTile/Controllers/AccountController.cs:34 | The ambiguity error (`SingleOrDefault` throwing) happens iff two different positions are labelled `p-identity`. |
| `ServiceCatalog.SelectMissingKey` | src/Pcf.Dotnet.Core.Security.SsoTile/Controllers/AccountController.cs:36-38 | The only identity binding lacks a key: the first missing key in reading order is reported (`auth_domain`, then `client_id`, then `client_secret`). |
| `OidcOptions.Build` | src/Pcf.Dotnet.Core.Security.SsoTile/Controllers/AccountController.cs:40-54 | Authority is `https://` followed by the domain. Client id and secret are the resolved ones. Response type is `code`, callback path `/callback`, claims issuer `Auth0`. The hook holds the domain and client id. |
| `OidcOptions.BuildRoundTrip` | src/Pcf.Dotnet.Core.Security.SsoTile/Controllers/AccountController.cs:40-48 | The credentials can be read back from the built options. The options follow the fixed policy, and the hook's domain is the authority's host. |
| `OidcOptions.BuildInjective` | src/Pcf.Dotnet.Core.Security.SsoTile/Controllers/AccountController.cs:40-48 | Different credentials give different options. |
| `PercentEncoding.Escape` | src/Pcf.Dotnet.Core.Security.SsoTile/Controllers/AccountController.cs:65 | The escaping has only unreserved characters and `%HH` triplets with upper-case digits. It is never shorter than its input. |
| `PercentEncoding.UnescapeEscape` | src/Pcf.Dotnet.Core.Security.SsoTile/Controllers/AccountController.cs:65 | Decoding the escaping of any string, including non-ASCII through UTF-8, gives back that string. |
| `PercentEncoding.EscapeInjective` | src/Pcf.Dotnet.Core.Security.SsoTile/Controllers/AccountController.cs:65 | Two strings with the same escaping are equal. |
| `PercentEncoding.EscapeConcat` | src/Pcf.Dotnet.Core.Security.SsoTile/Controllers/AccountController.cs:65 | Escaping works character by character: the escaping of a concatenation is the concatenation of the escapings. |
| `SignOutRedirect.Absolutise` | src/Pcf.Dotnet.Core.Security.SsoTile/Controllers/AccountController.cs:59-64 | The URI is kept whole at the end of the result. The result differs from the URI exactly when the URI starts with `/`. When the scheme does not start with `/`, the result is not a path. |
| `SignOutRedirect.AbsolutiseIdempotent` | src/Pcf.Dotnet.Core.Security.SsoTile/Controllers/AccountController.cs:59-64 | When the request scheme is empty or does not start with `/`, absolutising an already absolutised URI changes nothing, so a URI is never prefixed twice. |
| `SignOutRedirect.LogoutUri` | src/Pcf.Dotnet.Core.Security.SsoTile/Controllers/AccountController.cs:54-66 | Every logout address starts with `https://{domain}/v2/logout?client_id={clientId}`, with the domain and client id unescaped. With a null or empty post-logout URI it is exactly that address. |
| `SignOutRedirect.ReturnToRoundTrip` | src/Pcf.Dotnet.Core.Security.SsoTile/Controllers/AccountController.cs:54-66 | Without a post-logout URI (null or empty) there is no `returnTo` parameter. With one, the `returnTo` value decodes to exactly the absolutised URI. |
| `SignOutRedirect.ReturnToTarget` | src/Pcf.Dotnet.Core.Security.SsoTile/Controllers/AccountController.cs:59-65 | A path is prefixed once with the request's origin and path base. An absolute URI is carried as it is, with no double prefixing. |
| `SignOutRedirect.ReturnToIsOneParameter` | src/Pcf.Dotnet.Core.Security.SsoTile/Controllers/AccountController.cs:65 | After `&returnTo=` the address is an escaped string, with no `&`, `=`, `?`, `/` or `#`. |
| `SignOutRedirect.AmpersandOnlyBeforeReturnTo` | src/Pcf.Dotnet.Core.Security.SsoTile/Controllers/AccountController.cs:54-65 | If the domain and client id contain no `&`, consider the address's `&` characters. Without a post-logout URI there is none. With one there is exactly one, and it opens `returnTo`. |
| `SignOutRedirect.LogoutUnderAuthority` | src/Pcf.Dotnet.Core.Security.SsoTile/Controllers/AccountController.cs:42-54 | For options built by `Login`, the hook's logout address lies under the options' authority and client id. |
| `SignOutRedirect.ExampleNoPostLogoutUri` | src/Pcf.Dotnet.Core.Security.SsoTile/Controllers/AccountController.cs:54-57 | Example: no URI, or an empty one, gives `https://acme.example/v2/logout?client_id=abc123`. |
| `SignOutRedirect.ExampleRelativePostLogoutUri` | src/Pcf.Dotnet.Core.Security.SsoTile/Controllers/AccountController.cs:59-65 | Example: `/after-logout` on `https`, `app.example`, path base `/app` gives `returnTo=https%3A%2F%2Fapp.example%2Fapp%2Fafter-logout`. |
| `SignOutRedirect.ExampleAbsolutePostLogoutUri` | src/Pcf.Dotnet.Core.Security.SsoTile/Controllers/AccountController.cs:59-65 | Example: `https://other.example/done` gives `returnTo=https%3A%2F%2Fother.example%2Fdone`, with no prefix added. |
| `SignOutRedirect.OnRedirectToIdentityProviderForSignOut` | src/Pcf.Dotnet.Core.Security.SsoTile/Controllers/AccountController.cs:52-71 | The hook adds exactly two response actions: a redirect to the composed logout address, then marking the response handled. |
| `OptionsCache.AddIfAbsent` | src/Pcf.Dotnet.Core.Security.SsoTile/Controllers/AccountController.cs:76 | The name ends up stored. Its value is the old one if it was there, the new one otherwise. Every other key keeps its value. |
| `OptionsCache.StoredEntryIsKept` | src/Pcf.Dotnet.Core.Security.SsoTile/Controllers/AccountController.cs:76 | Once the name is stored, any run of later `TryAdd` calls under it leaves the whole map unchanged. |
| `OptionsCache.FirstRegistrationWins` | src/Pcf.Dotnet.Core.Security.SsoTile/Controllers/AccountController.cs:76 | Starting from an absent name, after any run of `TryAdd` calls the first options offered are stored. |
| `OptionsCache.SecondRegistrationIgnored` | src/Pcf.Dotnet.Core.Security.SsoTile/Controllers/AccountController.cs:76 | A second registration with different options does not replace the first (not last-write-wins). |
| `OptionsCache.Cache.TryAdd` | src/Pcf.Dotnet.Core.Security.SsoTile/Controllers/AccountController.cs:76 | The method returns true iff the name was absent. The new map is `AddIfAbsent` of the old one. |
| `AccountController.LoginKeepsOrder` | src/Pcf.Dotnet.Core.Security.SsoTile/Controllers/AccountController.cs:75-78 | Appending a Login's effects keeps every challenge after a registration for its scheme. |
| `AccountController.LogoutKeepsOrder` | src/Pcf.Dotnet.Core.Security.SsoTile/Controllers/AccountController.cs:84-91 | Appending a Logout's effects keeps every `Auth0` sign-out followed at once by the cookie sign-out. |
| `AccountController.Controller.Login` | src/Pcf.Dotnet.Core.Security.SsoTile/Controllers/AccountController.cs:31-79 | On a selection error: that error, with no effect and the cache unchanged. Otherwise: post-configure, then `TryAdd` of the built options (the cache becomes `AddIfAbsent`), then challenge `Auth0` with `returnUrl` as redirect (default `/`; a null `returnUrl` gives a null redirect). The log stays well ordered. |
| `AccountController.Controller.Logout` | src/Pcf.Dotnet.Core.Security.SsoTile/Controllers/AccountController.cs:81-92 | The method signs out of `Auth0` with the Home/Index URL as redirect, then out of the `Cookies` scheme. The log stays well ordered. |

## Left out

- What `OpenIdConnectPostConfigureOptions.PostConfigure` fills in is left out, because it is library code not shown. The model records that it was called and stores the options as built.
- `ChallengeAsync`, `SignOutAsync` and `Url.Action` are opaque. They are recorded as effects, or taken as a parameter string. This includes the OIDC handler's own choice of `RedirectUri` before it runs the hook.
- Token exchange and validation at `/callback`, and the local cookie session, are left out. They belong to the OIDC and cookie middleware.
- The `[Authorize]` gate on `Logout` is left out. The framework enforces it before the action runs.
- Async execution and concurrent Logins racing on the shared cache are left out. The model has sequential calls.
- `HostString` and `PathString` formatting (port, IDN, path escaping) is left out. The host and path base are taken as their string forms.
- `SignOutRedirect.Absolutise`: `StartsWith("/")` is modelled as an ordinal test of the first character. The source's culture-sensitive comparison, which can skip ignorable characters, is not modelled.
- `PercentEncoding.Escape`: the input-length limit of some runtimes of `Uri.EscapeDataString` is not modelled. Input is a sequence of Unicode scalar values, so lone surrogates cannot occur.
- Credential values are modelled as strings. A `Credential` whose `Value` is null is not modelled.
- The HomeController and Program files are left out. They hold view rendering and hosting setup only.
- The Steeltoe variant's `AccountController` is left out. It is a different application: an `[Authorize]` `Login` that redirects to Home/Index, and a `LogOff` that calls `SignOutAsync` on the default scheme and then redirects to Home/Index. It has no service selection, options registration or sign-out hook.
