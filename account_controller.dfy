/**
 * The SSO-tile `AccountController`: `Login` resolves the identity service,
 * builds and registers its OIDC options and challenges; `Logout` signs out
 * of the OIDC scheme and then of the cookie scheme. Framework calls are
 * recorded, in order, as effects.
 */
module AccountController {
  import opened Wrappers
  import opened ServiceCatalog
  import opened OidcOptions
  import opened OptionsCache

  const Auth0Scheme: string := "Auth0"
  /** `CookieAuthenticationDefaults.AuthenticationScheme`. */
  const CookieScheme: string := "Cookies"
  const DefaultReturnUrl: string := "/"

  /** A call the controller makes into the authentication framework. */
  datatype Effect =
    | PostConfigure(scheme: string, options: Options)
    | TryAdd(scheme: string, options: Options, added: bool)
    | Challenge(scheme: string, challengeRedirect: Option<string>)
    | SignOut(scheme: string, signOutRedirect: Option<string>)

  /** The effects of one successful `Login`, in the order it makes them. */
  function LoginEffects(o: Options, added: bool, returnUrl: Option<string>): seq<Effect>
  {
    [PostConfigure(Auth0Scheme, o), TryAdd(Auth0Scheme, o, added), Challenge(Auth0Scheme, returnUrl)]
  }

  /** The effects of `Logout`: the OIDC scheme first, then the cookie scheme. */
  function LogoutEffects(homeIndexUrl: Option<string>): seq<Effect>
  {
    [SignOut(Auth0Scheme, homeIndexUrl), SignOut(CookieScheme, None)]
  }

  /** Every challenge of a log comes after a registration for the same scheme. */
  predicate ChallengesAfterRegistration(log: seq<Effect>) {
    forall j :: 0 <= j < |log| && log[j].Challenge? ==>
      exists i :: 0 <= i < j && log[i].TryAdd? && log[i].scheme == log[j].scheme
  }

  predicate IsOidcSignOut(e: Effect) {
    e.SignOut? && e.scheme == Auth0Scheme
  }

  /** Every OIDC sign-out of a log is followed at once by the cookie sign-out. */
  predicate CookieSignOutFollows(log: seq<Effect>) {
    forall i :: 0 <= i < |log| && IsOidcSignOut(log[i]) ==>
      i + 1 < |log| && log[i + 1] == SignOut(CookieScheme, None)
  }

  /** The ordering guarantees of `Login` and `Logout`, over a whole log. */
  predicate WellOrdered(log: seq<Effect>) {
    ChallengesAfterRegistration(log) && CookieSignOutFollows(log)
  }

  /** A `Login` keeps every challenge after its registration. */
  lemma {:induction false} LoginKeepsOrder(log: seq<Effect>, o: Options, added: bool, returnUrl: Option<string>)
    requires WellOrdered(log)
    ensures WellOrdered(log + LoginEffects(o, added, returnUrl))
  {
    var es := LoginEffects(o, added, returnUrl);
    var all := log + es;
    forall j | 0 <= j < |all| && all[j].Challenge?
      ensures exists i :: 0 <= i < j && all[i].TryAdd? && all[i].scheme == all[j].scheme
    {
      if j < |log| {
        assert all[j] == log[j];
        var i :| 0 <= i < j && log[i].TryAdd? && log[i].scheme == log[j].scheme;
        assert all[i] == log[i];
      } else {
        assert all[|log| + 1] == es[1];
      }
    }
    forall i | 0 <= i < |all| && IsOidcSignOut(all[i])
      ensures i + 1 < |all| && all[i + 1] == SignOut(CookieScheme, None)
    {
      if i < |log| {
        assert all[i] == log[i];
        assert all[i + 1] == log[i + 1];
      }
    }
  }

  /** A `Logout` has each OIDC sign-out followed by the cookie sign-out. */
  lemma {:induction false} LogoutKeepsOrder(log: seq<Effect>, homeIndexUrl: Option<string>)
    requires WellOrdered(log)
    ensures WellOrdered(log + LogoutEffects(homeIndexUrl))
  {
    var all := log + LogoutEffects(homeIndexUrl);
    forall j | 0 <= j < |all| && all[j].Challenge?
      ensures exists i :: 0 <= i < j && all[i].TryAdd? && all[i].scheme == all[j].scheme
    {
      assert all[j] == log[j];
      var i :| 0 <= i < j && log[i].TryAdd? && log[i].scheme == log[j].scheme;
      assert all[i] == log[i];
    }
    forall i | 0 <= i < |all| && IsOidcSignOut(all[i])
      ensures i + 1 < |all| && all[i + 1] == SignOut(CookieScheme, None)
    {
      if i < |log| {
        assert all[i] == log[i];
        assert all[i + 1] == log[i + 1];
      }
    }
  }

  class Controller {
    /** `cloudFoundryServicesOptions.Value.ServicesList`. */
    const services: seq<ServiceBinding>
    const optionsCache: Cache
    /** The framework calls made so far, oldest first. */
    ghost var effects: seq<Effect>

    ghost predicate Valid()
      reads this
    {
      WellOrdered(effects)
    }

    constructor (services: seq<ServiceBinding>, optionsCache: Cache)
      ensures this.services == services && this.optionsCache == optionsCache
      ensures effects == [] && Valid()
    {
      this.services := services;
      this.optionsCache := optionsCache;
      effects := [];
    }

    /**
     * On a selection error `Login` throws before any framework call. Otherwise
     * it post-configures the built options, offers them to the cache and
     * challenges the `Auth0` scheme with `returnUrl` as the redirect target.
     * `returnUrl` is `/` when the query has none, and None (a null
     * `RedirectUri`) when model binding gives null.
     */
    method Login(returnUrl: Option<string> := Some(DefaultReturnUrl)) returns (outcome: Outcome<SelectError>)
      requires Valid()
      modifies this, optionsCache
      ensures Valid()
      ensures match SelectSsoCredentials(services)
        case Failure(e) =>
          && outcome == Fail(e)
          && effects == old(effects)
          && optionsCache.entries == old(optionsCache.entries)
        case Success(c) =>
          && outcome == Pass
          && optionsCache.entries == AddIfAbsent(old(optionsCache.entries), Auth0Scheme, Build(c))
          && effects == old(effects) + LoginEffects(Build(c), Auth0Scheme !in old(optionsCache.entries), returnUrl)
    {
      var selected := SelectSsoCredentials(services);
      if selected.Failure? {
        return Fail(selected.error);
      }
      var credentials := selected.value;
      var options := Build(credentials);
      ghost var log := effects;
      effects := effects + [PostConfigure(Auth0Scheme, options)];
      var added := optionsCache.TryAdd(Auth0Scheme, options);
      effects := effects + [TryAdd(Auth0Scheme, options, added)];
      effects := effects + [Challenge(Auth0Scheme, returnUrl)];
      assert effects == log + LoginEffects(options, added, returnUrl);
      LoginKeepsOrder(log, options, added, returnUrl);
      outcome := Pass;
    }

    /** `homeIndexUrl` is what `Url.Action("Index", "Home")` gives, null when no route matches. */
    method Logout(homeIndexUrl: Option<string>)
      requires Valid()
      modifies this
      ensures Valid()
      ensures effects == old(effects) + LogoutEffects(homeIndexUrl)
    {
      ghost var log := effects;
      effects := effects + [SignOut(Auth0Scheme, homeIndexUrl)];
      effects := effects + [SignOut(CookieScheme, None)];
      assert effects == log + LogoutEffects(homeIndexUrl);
      LogoutKeepsOrder(log, homeIndexUrl);
    }
  }
}
