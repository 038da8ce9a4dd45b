/**
 * `JwtAuthenticationFilter`: runs once per request. Public paths and requests
 * without a token pass through unauthenticated; otherwise a token that is
 * valid for its user and not revoked sets the request's authentication. Any
 * exception is swallowed, and the filter chain always continues.
 */
module JwtFilter {
  import opened Wrappers
  import opened Text
  import opened JwtBlacklist

  /** The user record the user-details service loads. */
  datatype UserDetails = UserDetails(username: string, authorities: seq<string>)

  /** The authentication placed in the security context: the user, the token as credentials, and the user's authorities. */
  datatype Authentication = Authentication(principal: UserDetails, credentials: string, authorities: seq<string>)

  /** The security context of the current request. */
  class SecurityContext {
    var authentication: Option<Authentication>

    constructor(authentication: Option<Authentication>)
      ensures this.authentication == authentication
    {
      this.authentication := authentication;
    }
  }

  /** `shouldSkipAuthentication(path)`: the login, refresh, validate and H2 console prefixes, and exactly `/error` and `/favicon.ico`. */
  predicate SkipAuthentication(path: string) {
    StartsWith(path, "/api/auth/login")
    || StartsWith(path, "/api/auth/refresh")
    || StartsWith(path, "/api/auth/validate")
    || StartsWith(path, "/h2-console")
    || path == "/error"
    || path == "/favicon.ico"
  }

  /** Everything under a public prefix is public. */
  lemma PublicPrefixes(rest: string)
    ensures SkipAuthentication("/api/auth/login" + rest)
    ensures SkipAuthentication("/api/auth/refresh" + rest)
    ensures SkipAuthentication("/api/auth/validate" + rest)
    ensures SkipAuthentication("/h2-console" + rest)
  {
    assert ("/api/auth/login" + rest)[..|"/api/auth/login"|] == "/api/auth/login";
    assert ("/api/auth/refresh" + rest)[..|"/api/auth/refresh"|] == "/api/auth/refresh";
    assert ("/api/auth/validate" + rest)[..|"/api/auth/validate"|] == "/api/auth/validate";
    assert ("/h2-console" + rest)[..|"/h2-console"|] == "/h2-console";
  }

  /** A path that differs from a prefix at some position does not start with it. */
  lemma DiffersAt(path: string, prefix: string, i: nat)
    requires i < |path| && i < |prefix| && path[i] != prefix[i]
    ensures !StartsWith(path, prefix)
  {
    if |prefix| <= |path| {
      assert path[..|prefix|][i] == path[i];
    }
  }

  /** No public prefix starts with `/api/c`, the path of every client endpoint. */
  lemma ClientApiIsProtected(path: string)
    requires StartsWith(path, "/api/c")
    ensures !SkipAuthentication(path)
  {
    assert path[..6] == "/api/c";
    assert path[5] == 'c';
    DiffersAt(path, "/api/auth/login", 5);
    DiffersAt(path, "/api/auth/refresh", 5);
    DiffersAt(path, "/api/auth/validate", 5);
    DiffersAt(path, "/h2-console", 1);
  }

  /** `/error` is public only as the exact path: anything below it needs a token. */
  lemma ErrorIsExact(rest: string)
    requires rest != ""
    ensures SkipAuthentication("/error")
    ensures !SkipAuthentication("/error" + rest)
  {
    var path := "/error" + rest;
    assert path[1] == 'e';
    DiffersAt(path, "/api/auth/login", 1);
    DiffersAt(path, "/api/auth/refresh", 1);
    DiffersAt(path, "/api/auth/validate", 1);
    DiffersAt(path, "/h2-console", 1);
    assert |path| != |"/favicon.ico"| || path[1] != "/favicon.ico"[1];
  }

  /** The logout endpoint is not public. */
  lemma LogoutIsProtected()
    ensures !SkipAuthentication("/api/auth/logout")
  {
    var path := "/api/auth/logout";
    assert path[13] == 'o' && path[10] == 'l' && path[1] == 'a';
    DiffersAt(path, "/api/auth/login", 13);
    DiffersAt(path, "/api/auth/refresh", 10);
    DiffersAt(path, "/api/auth/validate", 10);
    DiffersAt(path, "/h2-console", 1);
  }

  /**
   * The user to authenticate, if any: the path is not public, a token was
   * found, its username was extracted without an exception, no authentication
   * is set yet, the user loads, and the token is valid for the user and not
   * revoked. Each `Result` is a call that may throw.
   */
  function Admitted(path: string, token: Option<string>, extractUsername: string -> Result<Option<string>, string>,
                    alreadyAuthenticated: bool, loadUser: string -> Result<UserDetails, string>,
                    isTokenValid: (string, UserDetails) -> Result<bool, string>, revoked: bool)
    : (r: Option<UserDetails>)
    ensures r.Some? ==> !SkipAuthentication(path) && token.Some? && !alreadyAuthenticated && !revoked
    ensures r.Some? ==> extractUsername(token.value).Ok? && extractUsername(token.value).value.Some?
                        && loadUser(extractUsername(token.value).value.value) == Ok(r.value)
                        && isTokenValid(token.value, r.value) == Ok(true)
  {
    if SkipAuthentication(path) || token.None? then None
    else match extractUsername(token.value)
      case Err(_) => None
      case Ok(email) =>
        if email.None? || alreadyAuthenticated then None
        else match loadUser(email.value)
          case Err(_) => None
          case Ok(user) =>
            if isTokenValid(token.value, user) == Ok(true) && !revoked then Some(user) else None
  }

  /** Whether the filter reaches the revocation check, which is evaluated only after the validity check passed. */
  predicate ChecksRevocation(path: string, token: Option<string>, extractUsername: string -> Result<Option<string>, string>,
                             alreadyAuthenticated: bool, loadUser: string -> Result<UserDetails, string>,
                             isTokenValid: (string, UserDetails) -> Result<bool, string>)
  {
    !SkipAuthentication(path) && token.Some?
    && extractUsername(token.value).Ok? && extractUsername(token.value).value.Some? && !alreadyAuthenticated
    && loadUser(extractUsername(token.value).value.value).Ok?
    && isTokenValid(token.value, loadUser(extractUsername(token.value).value.value).value) == Ok(true)
  }

  /** A token found on a protected path authenticates its user exactly when every step succeeds and the token is not revoked. */
  lemma AdmittedExactly(path: string, token: string, extractUsername: string -> Result<Option<string>, string>,
                        loadUser: string -> Result<UserDetails, string>,
                        isTokenValid: (string, UserDetails) -> Result<bool, string>, revoked: bool)
    ensures Admitted(path, Some(token), extractUsername, false, loadUser, isTokenValid, revoked).Some?
            <==> ChecksRevocation(path, Some(token), extractUsername, false, loadUser, isTokenValid) && !revoked
  {
  }

  /**
   * `doFilterInternal(request, response, chain)`. `token` is what the JWT
   * service extracted from the request; the three service calls are
   * parameters returning `Err` when they throw. Returns whether the chain
   * was continued.
   */
  method DoFilterInternal(path: string, token: Option<string>, extractUsername: string -> Result<Option<string>, string>,
                          loadUser: string -> Result<UserDetails, string>,
                          isTokenValid: (string, UserDetails) -> Result<bool, string>,
                          blacklist: InMemoryJwtBlacklistService, context: SecurityContext, now: int)
    returns (chainContinued: bool)
    modifies blacklist, context
    ensures chainContinued
    ensures var admitted := Admitted(path, token, extractUsername, old(context.authentication).Some?, loadUser,
                                     isTokenValid, token.Some? && old(blacklist.Listed(token.value, now)));
            context.authentication == if admitted.Some? then Some(Authentication(admitted.value, token.value, admitted.value.authorities))
                                      else old(context.authentication)
    ensures if ChecksRevocation(path, token, extractUsername, old(context.authentication).Some?, loadUser, isTokenValid)
            then (blacklist.Listed(token.value, now) <==> old(blacklist.Listed(token.value, now)))
                 && blacklist.blacklistedTokens.Keys <= old(blacklist.blacklistedTokens).Keys
            else unchanged(blacklist)
  {
    if SkipAuthentication(path) {
      return true;
    }
    if token.None? {
      return true;
    }
    var extracted := extractUsername(token.value);
    if extracted.Ok? {
      var userEmail := extracted.value;
      if userEmail.Some? && context.authentication.None? {
        var loaded := loadUser(userEmail.value);
        if loaded.Ok? {
          var userDetails := loaded.value;
          if isTokenValid(token.value, userDetails) == Ok(true) {
            var revoked := blacklist.IsBlacklisted(token.value, now);
            if !revoked {
              context.authentication := Some(Authentication(userDetails, token.value, userDetails.authorities));
            }
          }
        }
      }
    }
    return true;
  }
}
