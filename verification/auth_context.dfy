/**
 * `AuthProvider`: the session state of the authentication context (the user,
 * the loading flag and the error message), its login, logout and status check,
 * and the interceptors it installs on the global HTTP client. It keeps its own
 * tokens in local storage under `token` and `refreshToken`.
 */
module AuthContext {
  import opened Wrappers
  import opened Text
  import opened Browser
  import opened JsError
  import ApiService

  const TOKEN_KEY: string := "token"
  const REFRESH_TOKEN_KEY: string := "refreshToken"
  const ROLE_PREFIX: string := "ROLE_"
  const CREDENTIALS_REQUIRED: string := "Username and password are required"
  const INVALID_CREDENTIALS: string := "Invalid username or password"

  datatype User = User(username: string, roles: seq<string>, authenticated: bool)

  /** The body of `/api/auth/login` and `/api/auth/refresh`. */
  datatype AuthResponse = AuthResponse(token: string, refreshToken: string, username: string, roles: seq<string>)

  /** A resolved response: its status and body. */
  datatype Answer<T> = Answer(status: int, body: T)

  /** The body of `/api/user`; `roles` is `None` when the field is missing. */
  datatype UserBody = UserBody(username: string, roles: Option<seq<string>>)

  /** `role.replace('ROLE_', '')`: drops the first `ROLE_` in the role name, wherever it is. */
  function StripRolePrefix(role: string): (r: string)
    ensures StartsWith(role, ROLE_PREFIX) ==> r == role[|ROLE_PREFIX|..]
    ensures forall i | OccursAt(role, ROLE_PREFIX, i) && (forall j | 0 <= j < i :: !OccursAt(role, ROLE_PREFIX, j)) ::
              r == role[..i] + role[i + |ROLE_PREFIX|..]
    ensures !Contains(role, ROLE_PREFIX) ==> r == role
  {
    if Contains(role, ROLE_PREFIX) then
      FirstOccurrenceRemoved(role);
      ReplaceFirst(role, ROLE_PREFIX, "")
    else
      ReplaceFirstAbsent(role, ROLE_PREFIX, "");
      ReplaceFirst(role, ROLE_PREFIX, "")
  }

  /** `ReplaceFirstAt` for every first occurrence of `ROLE_` in the role name. */
  lemma FirstOccurrenceRemoved(role: string)
    ensures forall i | OccursAt(role, ROLE_PREFIX, i) && (forall j | 0 <= j < i :: !OccursAt(role, ROLE_PREFIX, j)) ::
              ReplaceFirst(role, ROLE_PREFIX, "") == role[..i] + role[i + |ROLE_PREFIX|..]
  {
    forall i | OccursAt(role, ROLE_PREFIX, i) && (forall j | 0 <= j < i :: !OccursAt(role, ROLE_PREFIX, j))
      ensures ReplaceFirst(role, ROLE_PREFIX, "") == role[..i] + role[i + |ROLE_PREFIX|..]
    {
      ReplaceFirstAt(role, ROLE_PREFIX, "", i);
    }
  }

  /**
   * The request a login sends: `None` when the trimmed username or password is
   * empty (nothing is sent), else the server's answer to the trimmed pair.
   */
  function LoginAttempt(username: string, password: string, server: (string, string) -> Outcome<Answer<AuthResponse>>)
    : (r: Option<Outcome<Answer<AuthResponse>>>)
    ensures r.None? <==> JsTrim(username) == "" || JsTrim(password) == ""
    ensures r.Some? ==> r.value == server(JsTrim(username), JsTrim(password))
  {
    var u := JsTrim(username);
    var p := JsTrim(password);
    if u == "" || p == "" then None else Some(server(u, p))
  }

  class AuthState {
    var user: Option<User>
    var loading: bool
    var error: Option<string>

    constructor()
      ensures user.None? && !loading && error.None?
    {
      user := None;
      loading := false;
      error := None;
    }

    /** `isAuthenticated`: a user is set. */
    predicate IsAuthenticated()
      reads this
    {
      user.Some?
    }

    /** `hasRole(role)`: the current user holds `role`; false without a user. */
    function HasRole(role: string): (r: bool)
      reads this
      ensures r <==> user.Some? && exists i :: 0 <= i < |user.value.roles| && user.value.roles[i] == role
      ensures r ==> IsAuthenticated()
    {
      user.Some? && role in user.value.roles
    }

    /**
     * `login(username, password)`: both are trimmed and must be non-empty; the
     * trimmed pair is sent, and only a 200 answer stores the tokens and sets the
     * user. A rejected request clears the user with a fixed message. Loading is
     * off again at the end.
     */
    method Login(username: string, password: string, server: (string, string) -> Outcome<Answer<AuthResponse>>,
                 storage: LocalStorage)
      returns (ok: bool)
      modifies this, storage
      ensures !loading
      ensures ok <==> LoginAttempt(username, password, server).Some?
                      && LoginAttempt(username, password, server).value.Answered?
                      && LoginAttempt(username, password, server).value.data.status == 200
      ensures LoginAttempt(username, password, server).None? ==>
                error == Some(CREDENTIALS_REQUIRED) && user == old(user) && storage.items == old(storage.items)
      ensures LoginAttempt(username, password, server).Some? ==>
                match LoginAttempt(username, password, server).value
                case Failed(_) => error == Some(INVALID_CREDENTIALS) && user.None? && storage.items == old(storage.items)
                case Answered(a) =>
                  error.None? &&
                  if a.status == 200 then
                    user == Some(User(a.body.username, a.body.roles, true))
                    && storage.items == old(storage.items)[TOKEN_KEY := a.body.token][REFRESH_TOKEN_KEY := a.body.refreshToken]
                  else user == old(user) && storage.items == old(storage.items)
    {
      loading := true;
      error := None;
      // Trims both fields and sends the pair unless one of them is empty.
      var attempt := LoginAttempt(username, password, server);
      if attempt.None? {
        error := Some(CREDENTIALS_REQUIRED);
        loading := false;
        return false;
      }
      match attempt.value {
        case Failed(_) =>
          error := Some(INVALID_CREDENTIALS);
          user := None;
          ok := false;
        case Answered(a) =>
          if a.status == 200 {
            storage.SetItem(TOKEN_KEY, a.body.token);
            storage.SetItem(REFRESH_TOKEN_KEY, a.body.refreshToken);
            user := Some(User(a.body.username, a.body.roles, true));
            ok := true;
          } else {
            ok := false;
          }
      }
      loading := false;
    }

    /** `logout()`: removes both tokens and clears the user and the error. */
    method Logout(storage: LocalStorage)
      modifies this, storage
      ensures storage.items == old(storage.items) - {TOKEN_KEY, REFRESH_TOKEN_KEY}
      ensures user.None? && error.None? && loading == old(loading)
      ensures !IsAuthenticated() && forall role :: !HasRole(role)
    {
      storage.RemoveItem(TOKEN_KEY);
      storage.RemoveItem(REFRESH_TOKEN_KEY);
      user := None;
      error := None;
    }

    /**
     * `checkAuthStatus()`: without a stored token the user is cleared and
     * nothing is requested. A 200 answer with a body sets the user with each
     * role's `ROLE_` prefix removed; any other answer clears the user. A failed
     * request, or a body without roles (the `map` call throws), clears the user
     * and both tokens.
     */
    method CheckAuthStatus(storage: LocalStorage, outcome: Outcome<Answer<Option<UserBody>>>)
      modifies this, storage
      ensures loading == old(loading) && error == old(error)
      ensures !Truthy(old(storage.GetItem(TOKEN_KEY))) ==> user.None? && unchanged(storage)
      ensures Truthy(old(storage.GetItem(TOKEN_KEY))) ==>
                match outcome
                case Failed(_) =>
                  user.None? && storage.items == old(storage.items) - {TOKEN_KEY, REFRESH_TOKEN_KEY}
                case Answered(a) =>
                  if a.status == 200 && a.body.Some? then
                    if a.body.value.roles.None? then
                      user.None? && storage.items == old(storage.items) - {TOKEN_KEY, REFRESH_TOKEN_KEY}
                    else
                      unchanged(storage) && user.Some? && user.value.authenticated
                      && user.value.username == a.body.value.username
                      && |user.value.roles| == |a.body.value.roles.value|
                      && forall i :: 0 <= i < |user.value.roles| ==>
                           user.value.roles[i] == StripRolePrefix(a.body.value.roles.value[i])
                  else user.None? && unchanged(storage)
    {
      var token := storage.GetItem(TOKEN_KEY);
      if !Truthy(token) {
        user := None;
        return;
      }
      match outcome {
        case Failed(_) =>
          user := None;
          storage.RemoveItem(TOKEN_KEY);
          storage.RemoveItem(REFRESH_TOKEN_KEY);
        case Answered(a) =>
          if a.status == 200 && a.body.Some? {
            if a.body.value.roles.None? {
              user := None;
              storage.RemoveItem(TOKEN_KEY);
              storage.RemoveItem(REFRESH_TOKEN_KEY);
            } else {
              var roles := a.body.value.roles.value;
              var stripped := seq(|roles|, i requires 0 <= i < |roles| => StripRolePrefix(roles[i]));
              user := Some(User(a.body.value.username, stripped, true));
            }
          } else {
            user := None;
          }
      }
    }

    /**
     * The response interceptor: a 401 on a request not yet retried marks it and,
     * when a refresh token is stored, refreshes it; a refreshed token (only the
     * access token is stored) is put on the request, which is replayed. A failed
     * refresh logs out. Every other case passes the original error on.
     *
     * `refresh` is how the refresh request settled. That request goes through
     * this same interceptor, so a 401 answer to it is not yet a `Failed`
     * outcome: it posts another refresh first, and `Intercepted` follows the
     * nesting over the server's answers (`RefreshLoopAsWritten` shows an all-401
     * server never settling it).
     */
    method OnResponseError(config: ApiService.RequestConfig, e: Thrown, refresh: Outcome<AuthResponse>,
                           storage: LocalStorage)
      returns (d: ApiService.Decision)
      modifies this, config, storage
      ensures d.Replay? ==> !old(config.retry) && config.retry
      ensures d.Reject? ==> d.error == e
      ensures config.url == old(config.url) && config.httpMethod == old(config.httpMethod)
      ensures config.csrfRetry == old(config.csrfRetry)
      ensures !(Status(e) == Some(401) && !old(config.retry)) ==>
                d == ApiService.Reject(e) && unchanged(this) && unchanged(config) && unchanged(storage)
      ensures Status(e) == Some(401) && !old(config.retry) ==>
                config.retry &&
                if !Truthy(old(storage.GetItem(REFRESH_TOKEN_KEY))) then
                  d == ApiService.Reject(e) && unchanged(this) && unchanged(storage)
                else match refresh
                  case Answered(body) =>
                    d == ApiService.Replay && storage.items == old(storage.items)[TOKEN_KEY := body.token]
                    && user == old(user) && error == old(error)
                    && (old(config.headers).Some? ==>
                          config.headers.Some?
                          && ApiService.Get(config.headers.value, "Authorization") == Some(ApiService.Bearer(body.token)))
                    && (old(config.headers).None? ==> config.headers.None?)
                  case Failed(_) =>
                    d == ApiService.Reject(e) && user.None? && error.None?
                    && storage.items == old(storage.items) - {TOKEN_KEY, REFRESH_TOKEN_KEY}
    {
      if Status(e) == Some(401) && !config.retry {
        config.retry := true;
        var refreshToken := storage.GetItem(REFRESH_TOKEN_KEY);
        if Truthy(refreshToken) {
          match refresh {
            case Answered(body) =>
              storage.SetItem(TOKEN_KEY, body.token);
              if config.headers.Some? {
                config.SetHeader("Authorization", ApiService.Bearer(body.token));
              }
              return ApiService.Replay;
            case Failed(_) =>
              Logout(storage);
          }
        }
      }
      return ApiService.Reject(e);
    }
  }

  // ---------------------------------------------------------------------
  // A request through the global client, end to end
  // ---------------------------------------------------------------------

  /**
   * How a request sent through the global client settles, how many answers
   * that took, and whether `logout` ran on the way.
   */
  datatype Run = Run(settled: ApiService.Settled, used: nat, loggedOut: bool)

  /**
   * A request sent through the global client with the marker `retry`, while a
   * refresh token is stored exactly when `stored` holds, against a server that
   * answers the requests it receives with the statuses `answers` in turn; `None`
   * when every answer was used and a request is still outstanding.
   *
   * A first 401 with a stored refresh token posts `/api/auth/refresh`. Once that
   * request is fulfilled the original is replayed with the marker set; when it
   * is rejected, `logout` runs and the original is rejected. The replay's own
   * rejection is not caught, since it is returned without being awaited.
   * `exempt` says whether the refresh request carries the marker itself, which
   * as written it does not: it goes through this same interceptor, so its own
   * 401 posts another refresh. The refresh token stays stored while refreshes
   * nest, because `logout` only runs once a rejection travels back up. A 2xx
   * answer to the refresh is taken to carry a token.
   */
  function Intercepted(retry: bool, stored: bool, exempt: bool, answers: seq<int>): (r: Option<Run>)
    ensures r.Some? ==> 1 <= r.value.used <= |answers|
    decreases |answers|
  {
    if answers == [] then None
    else if 200 <= answers[0] < 300 then Some(Run(ApiService.Fulfilled, 1, false))
    else if answers[0] == 401 && !retry && stored then
      match Intercepted(exempt, stored, exempt, answers[1..])
      case None => None
      case Some(refresh) =>
        if refresh.settled == ApiService.Rejected then Some(Run(ApiService.Rejected, refresh.used + 1, true))
        else
          match Intercepted(true, stored, exempt, answers[refresh.used + 1..])
          case None => None
          case Some(replay) =>
            Some(Run(replay.settled, refresh.used + 1 + replay.used, refresh.loggedOut || replay.loggedOut))
    else Some(Run(ApiService.Rejected, 1, false))
  }

  /**
   * A logout only ever accompanies a rejection, and needs a stored refresh
   * token: a fulfilled request never logged out on the way.
   */
  lemma {:induction false} LogoutOnlyWhenRejected(retry: bool, stored: bool, exempt: bool, answers: seq<int>)
    ensures var r := Intercepted(retry, stored, exempt, answers);
            r.Some? && r.value.loggedOut ==> r.value.settled == ApiService.Rejected && stored
    decreases |answers|
  {
    if answers != [] && !(200 <= answers[0] < 300) && answers[0] == 401 && !retry && stored {
      var refresh := Intercepted(exempt, stored, exempt, answers[1..]);
      LogoutOnlyWhenRejected(exempt, stored, exempt, answers[1..]);
      if refresh.Some? && refresh.value.settled == ApiService.Fulfilled {
        LogoutOnlyWhenRejected(true, stored, exempt, answers[refresh.value.used + 1..]);
      }
    }
  }

  /**
   * As written, a server that keeps answering 401 (as the refresh endpoint does
   * for an invalid or expired refresh token) keeps a request going: each
   * refresh request is answered 401 and posts another refresh, so no number of
   * answers settles it and `logout` never runs.
   */
  lemma {:induction false} RefreshLoopAsWritten(n: nat)
    ensures Intercepted(false, true, false, seq(n, _ => 401)) == None
  {
    if n > 0 {
      var answers := seq(n, _ => 401);
      assert answers[1..] == seq(n - 1, _ => 401);
      RefreshLoopAsWritten(n - 1);
    }
  }

  /** With the refresh request exempt, it settles on its first answer, fulfilled exactly on a 2xx, without a logout. */
  lemma ExemptRefreshSettles(stored: bool, answers: seq<int>)
    requires answers != []
    ensures Intercepted(true, stored, true, answers)
         == Some(Run(if 200 <= answers[0] < 300 then ApiService.Fulfilled else ApiService.Rejected, 1, false))
  {
  }

  /**
   * With the refresh request exempt, as the interceptor evidently intends,
   * every request settles within three answers (itself, the refresh and the
   * replay); a refresh that is refused logs out and rejects the original
   * request, and a refresh that succeeds replays it, which settles on its
   * own answer.
   */
  lemma CorrectedInterceptorSettles(retry: bool, stored: bool, answers: seq<int>)
    ensures |answers| >= 3 ==> Intercepted(retry, stored, true, answers).Some?
    ensures Intercepted(retry, stored, true, answers).Some? ==> Intercepted(retry, stored, true, answers).value.used <= 3
    ensures |answers| >= 2 && answers[0] == 401 && !retry && stored && !(200 <= answers[1] < 300) ==>
              Intercepted(retry, stored, true, answers) == Some(Run(ApiService.Rejected, 2, true))
    ensures |answers| >= 3 && answers[0] == 401 && !retry && stored && 200 <= answers[1] < 300 ==>
              Intercepted(retry, stored, true, answers)
              == Some(Run(if 200 <= answers[2] < 300 then ApiService.Fulfilled else ApiService.Rejected, 3, false))
  {
    if |answers| >= 2 && answers[0] == 401 && !retry && stored {
      ExemptRefreshSettles(stored, answers[1..]);
      if 200 <= answers[1] < 300 && |answers| >= 3 {
        ExemptRefreshSettles(stored, answers[2..]);
      }
    }
  }

  /**
   * As written and as corrected, a request agrees unless its first answer is a
   * 401 that starts a refresh; a refresh request that starts one itself is
   * rejected at once by the corrected interceptor.
   */
  lemma InterceptedAgrees(retry: bool, stored: bool, answers: seq<int>)
    requires answers != []
    ensures !(answers[0] == 401 && !retry && stored) ==>
              Intercepted(retry, stored, false, answers) == Intercepted(retry, stored, true, answers)
  {
  }

  /** The request interceptor: the stored `token` as a bearer token, when the request has headers. */
  method InterceptRequest(config: ApiService.RequestConfig, storage: LocalStorage)
    modifies config
    ensures Truthy(storage.GetItem(TOKEN_KEY)) && old(config.headers).Some? ==>
              config.headers == Some(old(config.headers).value["Authorization" := ApiService.Bearer(storage.GetItem(TOKEN_KEY).value)])
    ensures !(Truthy(storage.GetItem(TOKEN_KEY)) && old(config.headers).Some?) ==> config.headers == old(config.headers)
    ensures config.url == old(config.url) && config.httpMethod == old(config.httpMethod)
    ensures config.retry == old(config.retry) && config.csrfRetry == old(config.csrfRetry)
  {
    var token := storage.GetItem(TOKEN_KEY);
    if Truthy(token) && config.headers.Some? {
      config.SetHeader("Authorization", ApiService.Bearer(token.value));
    }
  }

  /** A role checked after a reload is the server's role without its `ROLE_` prefix. */
  lemma StrippedRole(role: string)
    ensures StripRolePrefix(ROLE_PREFIX + role) == role
  {
    assert StartsWith(ROLE_PREFIX + role, ROLE_PREFIX);
    assert (ROLE_PREFIX + role)[|ROLE_PREFIX|..] == role;
  }
}
