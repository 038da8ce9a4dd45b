/**
 * `tokenManager` (services): the access and refresh tokens kept in local
 * storage under `accessToken` and `refreshToken`, and their expiry check.
 */
module TokenManager {
  import opened Wrappers
  import opened Text
  import opened Browser
  import opened Jwt

  const ACCESS_TOKEN_KEY: string := "accessToken"
  const REFRESH_TOKEN_KEY: string := "refreshToken"

  method SetAccessToken(storage: LocalStorage, token: string)
    modifies storage
    ensures storage.items == old(storage.items)[ACCESS_TOKEN_KEY := token]
    ensures GetAccessToken(storage) == Some(token)
    ensures GetRefreshToken(storage) == old(GetRefreshToken(storage))
  {
    storage.SetItem(ACCESS_TOKEN_KEY, token);
  }

  method SetRefreshToken(storage: LocalStorage, token: string)
    modifies storage
    ensures storage.items == old(storage.items)[REFRESH_TOKEN_KEY := token]
    ensures GetRefreshToken(storage) == Some(token)
    ensures GetAccessToken(storage) == old(GetAccessToken(storage))
  {
    storage.SetItem(REFRESH_TOKEN_KEY, token);
  }

  function GetAccessToken(storage: LocalStorage): Option<string>
    reads storage
  {
    storage.GetItem(ACCESS_TOKEN_KEY)
  }

  function GetRefreshToken(storage: LocalStorage): Option<string>
    reads storage
  {
    storage.GetItem(REFRESH_TOKEN_KEY)
  }

  method ClearTokens(storage: LocalStorage)
    modifies storage
    ensures storage.items == old(storage.items) - {ACCESS_TOKEN_KEY, REFRESH_TOKEN_KEY}
    ensures GetAccessToken(storage) == None && GetRefreshToken(storage) == None
  {
    storage.RemoveItem(ACCESS_TOKEN_KEY);
    storage.RemoveItem(REFRESH_TOKEN_KEY);
  }

  /**
   * `isTokenValid(providedToken?)`: the provided token when truthy, else the
   * stored one, must decode to a payload with a numeric `exp` that lies more
   * than 5 minutes after `now`.
   */
  function IsTokenValid(providedToken: Option<string>, storage: LocalStorage, decode: Decoder, now: int): (r: bool)
    reads storage
    ensures Truthy(providedToken) ==> r == ValidAt(providedToken, decode, now)
    ensures !Truthy(providedToken) ==> r == ValidAt(GetAccessToken(storage), decode, now)
    ensures r ==> Truthy(providedToken) || Truthy(GetAccessToken(storage))
  {
    var token := if Truthy(providedToken) then providedToken else GetAccessToken(storage);
    ValidAt(token, decode, now)
  }

  /** `hasValidAccessToken`: false without a stored token, otherwise the stored token's validity. */
  function HasValidAccessToken(storage: LocalStorage, decode: Decoder, now: int): (r: bool)
    reads storage
    ensures !Truthy(GetAccessToken(storage)) ==> !r
    ensures r == IsTokenValid(None, storage, decode, now)
  {
    var token := GetAccessToken(storage);
    if Truthy(token) then IsTokenValid(token, storage, decode, now) else false
  }
}
