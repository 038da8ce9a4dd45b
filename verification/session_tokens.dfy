/**
 * `tokenManager` (utils): the token pair kept in local storage under
 * `access_token` and `refresh_token`, used by the authentication service and
 * the client/interface context.
 */
module SessionTokens {
  import opened Wrappers
  import opened Text
  import opened Browser
  import opened Jwt

  const ACCESS_TOKEN_KEY: string := "access_token"
  const REFRESH_TOKEN_KEY: string := "refresh_token"

  /** `setToken(token, refreshToken)`. */
  method SetToken(storage: LocalStorage, token: string, refreshToken: string)
    modifies storage
    ensures storage.items == old(storage.items)[ACCESS_TOKEN_KEY := token][REFRESH_TOKEN_KEY := refreshToken]
    ensures GetToken(storage) == Some(token) && GetRefreshToken(storage) == Some(refreshToken)
  {
    storage.SetItem(ACCESS_TOKEN_KEY, token);
    storage.SetItem(REFRESH_TOKEN_KEY, refreshToken);
  }

  function GetToken(storage: LocalStorage): Option<string>
    reads storage
  {
    storage.GetItem(ACCESS_TOKEN_KEY)
  }

  function GetRefreshToken(storage: LocalStorage): Option<string>
    reads storage
  {
    storage.GetItem(REFRESH_TOKEN_KEY)
  }

  /** `clearToken()`: removes both keys. */
  method ClearToken(storage: LocalStorage)
    modifies storage
    ensures storage.items == old(storage.items) - {ACCESS_TOKEN_KEY, REFRESH_TOKEN_KEY}
    ensures GetToken(storage) == None && GetRefreshToken(storage) == None
  {
    storage.RemoveItem(ACCESS_TOKEN_KEY);
    storage.RemoveItem(REFRESH_TOKEN_KEY);
  }

  /**
   * `isTokenValid()`: the stored access token is present, its payload decodes,
   * and its `exp` (seconds) lies strictly after `now` (milliseconds); a token
   * whose payload fails to decode counts as invalid. There is no `typeof`
   * check, so an `exp` written as a numeric string counts like the number.
   */
  function IsTokenValid(storage: LocalStorage, decode: Decoder, now: int): (r: bool)
    reads storage
    ensures r ==> Truthy(GetToken(storage)) && decode(GetToken(storage).value).Some?
    ensures Truthy(GetToken(storage)) && decode(GetToken(storage).value).Some?
            ==> (r <==> CoercedExpiresAfter(decode(GetToken(storage).value).value, now))
  {
    var token := GetToken(storage);
    if !Truthy(token) then false
    else
      match decode(token.value)
      case None => false
      case Some(p) => (p.exp.NumericExp? || p.exp.NumericTextExp?) && p.exp.seconds * 1000 > now
  }

  /**
   * The check here has no safety margin: a token that passes the buffered check
   * of `Jwt.ValidAt` passes it, and a token inside the last five minutes of its
   * life passes it but not the buffered one.
   */
  lemma {:induction false} BufferedCheckIsStricter(storage: LocalStorage, decode: Decoder, now: int)
    ensures ValidAt(GetToken(storage), decode, now) ==> IsTokenValid(storage, decode, now)
    ensures IsTokenValid(storage, decode, now) && !ExpiresAfter(decode(GetToken(storage).value).value, now + BUFFER_MS)
            ==> !ValidAt(GetToken(storage), decode, now)
  {
  }

  /**
   * An `exp` written as a numeric string is accepted here when its time has not
   * come, while the checks with a `typeof` test (`Jwt.ValidAt`) refuse it at
   * any time.
   */
  lemma TextExpAcceptedHereOnly(storage: LocalStorage, decode: Decoder, now: int)
    requires Truthy(GetToken(storage)) && decode(GetToken(storage).value).Some?
    requires decode(GetToken(storage).value).value.exp.NumericTextExp?
    ensures IsTokenValid(storage, decode, now) <==> decode(GetToken(storage).value).value.exp.seconds * 1000 > now
    ensures !ValidAt(GetToken(storage), decode, now)
  {
  }
}
