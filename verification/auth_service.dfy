/**
 * `authService`: login, logout, token refresh and token validation against the
 * server, keeping the token pair in local storage and the CSRF token in a
 * cookie. The server's answer to each call is a parameter.
 */
module AuthService {
  import opened Wrappers
  import opened Text
  import opened Browser
  import opened JsError
  import opened Jwt
  import SessionTokens
  import TokenService
  import ErrorHandler

  datatype LoginResponse = LoginResponse(
    token: string, refreshToken: string, username: string, roles: seq<string>, csrfToken: Option<string>)

  datatype RefreshResponse = RefreshResponse(token: string, refreshToken: string)

  datatype ValidateTokenResponse = ValidateTokenResponse(valid: bool, username: string, roles: seq<string>)

  /** The `Error('No refresh token available')` thrown by `refreshToken`. */
  const NO_REFRESH_TOKEN: Thrown := PlainError("No refresh token available")

  // ---------------------------------------------------------------------
  // The CSRF cookie test of login
  // ---------------------------------------------------------------------

  const CSRF_PREFIX: string := "XSRF-TOKEN="

  /** Some `;`-separated piece of the cookie text starts, once trimmed, with `XSRF-TOKEN=`. */
  predicate HasCsrfPiece(pieces: seq<string>) {
    exists i | 0 <= i < |pieces| :: StartsWith(JsTrim(pieces[i]), CSRF_PREFIX)
  }

  /** Text that starts with `XSRF-TOKEN=` has `XSRF-TOKEN` before its first `=`. */
  lemma PrefixBeforeEquals(e: string)
    requires StartsWith(e, CSRF_PREFIX)
    ensures Split(e, '=')[0] == TokenService.CSRF_TOKEN_COOKIE
  {
    assert e == TokenService.CSRF_TOKEN_COOKIE + (['='] + e[11..]);
    SplitConcat(TokenService.CSRF_TOKEN_COOKIE, e[11..], '=');
  }

  /** A cookie's entry starts with `XSRF-TOKEN=` exactly when the cookie is named `XSRF-TOKEN`. */
  lemma EntryStartsWithCsrf(c: Cookie)
    requires WellFormed(c)
    ensures StartsWith(Entry(c), CSRF_PREFIX) <==> c.name == TokenService.CSRF_TOKEN_COOKIE
  {
    var e := Entry(c);
    if StartsWith(e, CSRF_PREFIX) {
      // Both the name and the prefix end at the first `=` of the entry.
      TokenService.SplitEntry(c);
      PrefixBeforeEquals(e);
    }
    if c.name == TokenService.CSRF_TOKEN_COOKIE {
      assert e[..11] == CSRF_PREFIX;
    }
  }

  /** The trimmed `i`-th piece of the cookie text starts with `XSRF-TOKEN=` exactly when the `i`-th cookie is `XSRF-TOKEN`. */
  lemma SegmentStartsWithCsrf(cookies: seq<Cookie>, i: nat)
    requires i < |cookies| && WellFormed(cookies[i])
    ensures ';' !in Segments(cookies)[i]
    ensures StartsWith(JsTrim(Segments(cookies)[i]), CSRF_PREFIX) <==> cookies[i].name == TokenService.CSRF_TOKEN_COOKIE
  {
    SegmentNoSemicolon(cookies, i);
    SegmentCsrf(cookies, i);
  }

  lemma SegmentShape(cookies: seq<Cookie>, i: nat)
    requires i < |cookies|
    ensures Segments(cookies)[i] == if i == 0 then Entry(cookies[i]) else " " + Entry(cookies[i])
  {
    if i == 0 {
      assert "" + Entry(cookies[i]) == Entry(cookies[i]);
    }
  }

  lemma SegmentNoSemicolon(cookies: seq<Cookie>, i: nat)
    requires i < |cookies| && WellFormed(cookies[i])
    ensures ';' !in Segments(cookies)[i]
  {
    SegmentShape(cookies, i);
    TokenService.EntryNoSemicolon(cookies[i]);
  }

  lemma SegmentCsrf(cookies: seq<Cookie>, i: nat)
    requires i < |cookies| && WellFormed(cookies[i])
    ensures StartsWith(JsTrim(Segments(cookies)[i]), CSRF_PREFIX) <==> cookies[i].name == TokenService.CSRF_TOKEN_COOKIE
  {
    SegmentTrim(cookies, i);
    EntryStartsWithCsrf(cookies[i]);
  }

  lemma SegmentTrim(cookies: seq<Cookie>, i: nat)
    requires i < |cookies| && WellFormed(cookies[i])
    ensures JsTrim(Segments(cookies)[i]) == Entry(cookies[i])
  {
    SegmentShape(cookies, i);
    TrimPiece(Segments(cookies)[i], cookies[i]);
  }

  /** A cookie's entry, with or without the leading space, trims to the entry. */
  lemma TrimPiece(piece: string, c: Cookie)
    requires WellFormed(c) && (piece == Entry(c) || piece == " " + Entry(c))
    ensures JsTrim(piece) == Entry(c)
  {
    TokenService.EntryTrim(c);
  }

  /** Some piece of a non-empty jar's text names `XSRF-TOKEN` exactly when one of its cookies does. */
  lemma HasCsrfPieceOfSegments(cookies: seq<Cookie>)
    requires forall i :: 0 <= i < |cookies| ==> WellFormed(cookies[i])
    ensures forall i :: 0 <= i < |cookies| ==> ';' !in Segments(cookies)[i]
    ensures HasCsrfPiece(Segments(cookies)) <==> exists i :: 0 <= i < |cookies| && cookies[i].name == TokenService.CSRF_TOKEN_COOKIE
  {
    forall i | 0 <= i < |cookies|
      ensures ';' !in Segments(cookies)[i]
      ensures StartsWith(JsTrim(Segments(cookies)[i]), CSRF_PREFIX) <==> cookies[i].name == TokenService.CSRF_TOKEN_COOKIE
    {
      SegmentStartsWithCsrf(cookies, i);
    }
  }

  /** On a jar of well-formed cookies the textual test finds exactly the `XSRF-TOKEN` cookie. */
  lemma HasCsrfPieceOfCookies(cookies: seq<Cookie>)
    requires forall i :: 0 <= i < |cookies| ==> WellFormed(cookies[i])
    ensures HasCsrfPiece(Split(Join(Segments(cookies), ";"), ';'))
            <==> Lookup(cookies, TokenService.CSRF_TOKEN_COOKIE).Some?
  {
    var segs := Segments(cookies);
    if cookies == [] {
      assert Join(segs, ";") == "";
      assert Split("", ';') == [""];
      assert JsTrim("") == "";
    } else {
      HasCsrfPieceOfSegments(cookies);
      JoinSplit(segs, ';');
    }
  }

  // ---------------------------------------------------------------------
  // Operations
  // ---------------------------------------------------------------------

  /**
   * `login`: on success stores the token pair, writes the CSRF cookie when the
   * response carries a CSRF token and no `XSRF-TOKEN` cookie exists yet, and
   * returns the response; on failure rethrows and changes nothing.
   */
  method Login(storage: LocalStorage, jar: CookieJar, outcome: Outcome<LoginResponse>)
    returns (r: Result<LoginResponse, Thrown>)
    requires jar.Valid()
    modifies storage, jar
    ensures jar.Valid()
    ensures outcome.Failed? ==> r == Err(outcome.error) && unchanged(storage) && unchanged(jar)
    ensures outcome.Answered? ==> r == Ok(outcome.data)
    ensures outcome.Answered? ==> storage.items == old(storage.items)
              [SessionTokens.ACCESS_TOKEN_KEY := outcome.data.token]
              [SessionTokens.REFRESH_TOKEN_KEY := outcome.data.refreshToken]
    ensures (old(Lookup(jar.cookies, TokenService.CSRF_TOKEN_COOKIE)).Some? || outcome.Failed?
             || !Truthy(outcome.data.csrfToken)) ==> jar.cookies == old(jar.cookies)
    ensures outcome.Answered? && Truthy(outcome.data.csrfToken)
            && old(Lookup(jar.cookies, TokenService.CSRF_TOKEN_COOKIE)).None?
            && WellFormed(Cookie(TokenService.CSRF_TOKEN_COOKIE, outcome.data.csrfToken.value))
            ==> Lookup(jar.cookies, TokenService.CSRF_TOKEN_COOKIE) == outcome.data.csrfToken
  {
    if outcome.Failed? {
      return Err(outcome.error);
    }
    var data := outcome.data;
    SessionTokens.SetToken(storage, data.token, data.refreshToken);
    if Truthy(data.csrfToken) {
      var cookies := Split(jar.CookieString(), ';');
      HasCsrfPieceOfCookies(jar.cookies);
      if !HasCsrfPiece(cookies) {
        var csrf := data.csrfToken.value;
        ghost var before := jar.cookies;
        TokenService.SetCsrfToken(jar, csrf);
        if WellFormed(Cookie(TokenService.CSRF_TOKEN_COOKIE, csrf)) {
          UpsertLookup(before, Cookie(TokenService.CSRF_TOKEN_COOKIE, csrf), TokenService.CSRF_TOKEN_COOKIE);
        }
      }
    }
    return Ok(data);
  }

  /** The `TypeError` raised by calling `tokenManager.clearTokens`, which the storage helper does not define. */
  const CLEAR_TOKENS_TYPE_ERROR: Thrown :=
    ObjectError(false, None, Some("tokenManager.clearTokens is not a function"), Some("TypeError"), true, false)

  /**
   * `logout` as written: both the success path and the failure path call
   * `tokenManager.clearTokens()`, which the imported storage helper does not
   * define (it has `clearToken`), so the call throws a `TypeError` and the
   * tokens stay in storage whatever the server answers.
   */
  method LogoutAsWritten(storage: LocalStorage, outcome: Option<Thrown>) returns (r: Result<(), Thrown>)
    modifies storage
    ensures unchanged(storage)
    ensures r == Err(CLEAR_TOKENS_TYPE_ERROR)
  {
    // Both branches reach the missing function before anything else happens.
    r := Err(CLEAR_TOKENS_TYPE_ERROR);
  }

  /** The storage left behind by a logout as written still holds a stored token. */
  method LogoutLeavesTokens() returns (token: Option<string>)
    ensures token == Some("t")
  {
    var storage := new LocalStorage();
    SessionTokens.SetToken(storage, "t", "r");
    var _ := LogoutAsWritten(storage, None);
    token := SessionTokens.GetToken(storage);
  }

  /**
   * `logout` with the token pair cleared as intended: the tokens are removed
   * whether the server call succeeds or fails, and a failure is rethrown.
   */
  method Logout(storage: LocalStorage, outcome: Option<Thrown>) returns (r: Result<(), Thrown>)
    modifies storage
    ensures storage.items == old(storage.items) - {SessionTokens.ACCESS_TOKEN_KEY, SessionTokens.REFRESH_TOKEN_KEY}
    ensures SessionTokens.GetToken(storage) == None && SessionTokens.GetRefreshToken(storage) == None
    ensures outcome.None? ==> r == Ok(())
    ensures outcome.Some? ==> r == Err(outcome.value)
  {
    SessionTokens.ClearToken(storage);
    if outcome.Some? {
      return Err(outcome.value);
    }
    return Ok(());
  }

  /**
   * `refreshToken`: without a stored refresh token it throws before any request;
   * on success it stores the new pair and returns the new access token; on
   * failure it clears the pair (as intended, see `LogoutAsWritten`) and rethrows.
   */
  method RefreshToken(storage: LocalStorage, outcome: Outcome<RefreshResponse>) returns (r: Result<string, Thrown>)
    modifies storage
    ensures !Truthy(old(SessionTokens.GetRefreshToken(storage))) ==> r == Err(NO_REFRESH_TOKEN) && unchanged(storage)
    ensures Truthy(old(SessionTokens.GetRefreshToken(storage))) && outcome.Answered?
            ==> r == Ok(outcome.data.token)
                && storage.items == old(storage.items)
                     [SessionTokens.ACCESS_TOKEN_KEY := outcome.data.token]
                     [SessionTokens.REFRESH_TOKEN_KEY := outcome.data.refreshToken]
    ensures Truthy(old(SessionTokens.GetRefreshToken(storage))) && outcome.Failed?
            ==> r == Err(outcome.error)
                && storage.items == old(storage.items) - {SessionTokens.ACCESS_TOKEN_KEY, SessionTokens.REFRESH_TOKEN_KEY}
  {
    var refreshToken := SessionTokens.GetRefreshToken(storage);
    if !Truthy(refreshToken) {
      return Err(NO_REFRESH_TOKEN);
    }
    match outcome {
      case Answered(data) =>
        SessionTokens.SetToken(storage, data.token, data.refreshToken);
        return Ok(data.token);
      case Failed(e) =>
        SessionTokens.ClearToken(storage);
        return Err(e);
    }
  }

  /**
   * `refreshToken` as written: its failure path also calls the missing
   * `tokenManager.clearTokens()`, so the caller receives the `TypeError` instead
   * of the server's error and the old tokens stay in storage.
   */
  method RefreshTokenAsWritten(storage: LocalStorage, outcome: Outcome<RefreshResponse>) returns (r: Result<string, Thrown>)
    modifies storage
    ensures !Truthy(old(SessionTokens.GetRefreshToken(storage))) ==> r == Err(NO_REFRESH_TOKEN) && unchanged(storage)
    ensures Truthy(old(SessionTokens.GetRefreshToken(storage))) && outcome.Failed?
            ==> r == Err(CLEAR_TOKENS_TYPE_ERROR) && unchanged(storage)
    ensures Truthy(old(SessionTokens.GetRefreshToken(storage))) && outcome.Answered?
            ==> r == Ok(outcome.data.token)
                && storage.items == old(storage.items)
                     [SessionTokens.ACCESS_TOKEN_KEY := outcome.data.token]
                     [SessionTokens.REFRESH_TOKEN_KEY := outcome.data.refreshToken]
  {
    var refreshToken := SessionTokens.GetRefreshToken(storage);
    if !Truthy(refreshToken) {
      return Err(NO_REFRESH_TOKEN);
    }
    match outcome {
      case Answered(data) =>
        SessionTokens.SetToken(storage, data.token, data.refreshToken);
        return Ok(data.token);
      case Failed(_) =>
        return Err(CLEAR_TOKENS_TYPE_ERROR);
    }
  }

  /**
   * `isAuthenticated`: the storage helper's expiry check of the stored access
   * token, which has no safety margin.
   */
  function IsAuthenticated(storage: LocalStorage, decode: Decoder, now: int): (r: bool)
    reads storage
    ensures r <==> Truthy(SessionTokens.GetToken(storage)) && decode(SessionTokens.GetToken(storage).value).Some?
                   && CoercedExpiresAfter(decode(SessionTokens.GetToken(storage).value).value, now)
    ensures ValidAt(SessionTokens.GetToken(storage), decode, now) ==> r
  {
    SessionTokens.BufferedCheckIsStricter(storage, decode, now);
    SessionTokens.IsTokenValid(storage, decode, now)
  }

  /** `getCurrentUser`: the `/user` answer, or the error normalised by `handleApiError`. */
  function GetCurrentUser<User>(outcome: Outcome<User>): (r: Result<User, ErrorHandler.ApiError>)
    ensures outcome.Answered? ==> r == Ok(outcome.data)
    ensures outcome.Failed? ==> r == Err(ErrorHandler.HandleApiError(outcome.error))
  {
    match outcome
    case Answered(u) => Ok(u)
    case Failed(e) => Err(ErrorHandler.HandleApiError(e))
  }

  /**
   * The exported `logout` helper used by interceptors: removes the `user` entry
   * from local storage and navigates to `/login`.
   */
  method ForgetUser(storage: LocalStorage) returns (navigateTo: string)
    modifies storage
    ensures storage.items == old(storage.items) - {"user"}
    ensures navigateTo == "/login"
  {
    storage.RemoveItem("user");
    navigateTo := "/login";
  }

  /** `validateToken`: the server's answer, or an invalid empty answer on any error; never throws. */
  function ValidateToken(outcome: Outcome<ValidateTokenResponse>): (r: ValidateTokenResponse)
    ensures outcome.Failed? ==> r == ValidateTokenResponse(false, "", [])
    ensures outcome.Answered? ==> r == outcome.data
    ensures r.valid ==> outcome.Answered?
  {
    match outcome
    case Answered(data) => data
    case Failed(_) => ValidateTokenResponse(false, "", [])
  }
}
