/**
 * `apiService`: the HTTP client instance with its request interceptor (bearer
 * token and CSRF header), its response interceptor (one CSRF refresh after a
 * 403, one token refresh after a 401, then a replay of the request), and the
 * error normaliser `handleError`.
 */
module ApiService {
  import opened Wrappers
  import opened Text
  import opened Browser
  import opened JsError
  import TokenService

  const AUTHORIZATION: string := "Authorization"
  const CSRF_HEADER: string := "X-CSRF-TOKEN"
  const XSRF_HEADER: string := "X-XSRF-TOKEN"
  const AUTH_PATH: string := "/auth/"
  const LOGIN_PATH: string := "/login"

  /** The error thrown when a 401 arrives and no refresh token is stored. */
  const NO_REFRESH_TOKEN: Thrown := PlainError("No refresh token available")

  function Bearer(token: string): string {
    "Bearer " + token
  }

  /** `map.get(key)`: the value under `key`, if any. */
  function Get(m: map<string, string>, key: string): Option<string> {
    if key in m then Some(m[key]) else None
  }

  /** `config.url?.includes('/auth/')`: a missing URL does not name an auth endpoint. */
  predicate IsAuthEndpoint(url: Option<string>) {
    url.Some? && Contains(url.value, AUTH_PATH)
  }

  /** `config.method?.toUpperCase() === 'GET'`. */
  predicate IsGet(httpMethod: Option<string>) {
    httpMethod.Some? && ToUpper(httpMethod.value) == "GET"
  }

  /**
   * A request's configuration as the interceptors see and change it: the
   * headers (possibly missing) and the two replay markers `_retry` and
   * `_csrfRetry`.
   */
  class RequestConfig {
    var url: Option<string>
    var httpMethod: Option<string>
    var headers: Option<map<string, string>>
    var retry: bool
    var csrfRetry: bool

    constructor(url: Option<string>, httpMethod: Option<string>)
      ensures this.url == url && this.httpMethod == httpMethod
      ensures headers.None? && !retry && !csrfRetry
    {
      this.url := url;
      this.httpMethod := httpMethod;
      headers := None;
      retry := false;
      csrfRetry := false;
    }

    /** How many more times the response interceptor may replay this request. */
    function ReplaysLeft(): (n: nat)
      reads this
      ensures n <= 2
      ensures n == 0 <==> retry && csrfRetry
    {
      MarkersLeft(retry, csrfRetry)
    }

    /** `headers[name] = value`, creating the header object first when it is missing. */
    method SetHeader(name: string, value: string)
      modifies this
      ensures headers.Some? && headers.value == old(if headers.Some? then headers.value else map[])[name := value]
      ensures url == old(url) && httpMethod == old(httpMethod) && retry == old(retry) && csrfRetry == old(csrfRetry)
    {
      var h := if headers.Some? then headers.value else map[];
      headers := Some(h[name := value]);
    }
  }

  // ---------------------------------------------------------------------
  // Request interceptor
  // ---------------------------------------------------------------------

  /**
   * The headers a request leaves with: a bearer token unless the URL names an
   * auth endpoint, and the CSRF token unless the method is GET; each only when
   * the token is present and non-empty. Every other header is kept.
   */
  function OutgoingHeaders(headers: map<string, string>, url: Option<string>, httpMethod: Option<string>,
                           token: Option<string>, csrf: Option<string>): (r: map<string, string>)
    ensures !IsAuthEndpoint(url) && Truthy(token) ==> Get(r, AUTHORIZATION) == Some(Bearer(token.value))
    ensures IsAuthEndpoint(url) || !Truthy(token) ==> Get(r, AUTHORIZATION) == Get(headers, AUTHORIZATION)
    ensures !IsGet(httpMethod) && Truthy(csrf) ==> Get(r, CSRF_HEADER) == csrf
    ensures IsGet(httpMethod) || !Truthy(csrf) ==> Get(r, CSRF_HEADER) == Get(headers, CSRF_HEADER)
    ensures forall k | k in headers :: k in r
    ensures forall k | k in r :: k in headers || k == AUTHORIZATION || k == CSRF_HEADER
    ensures forall k | k in headers && k != AUTHORIZATION && k != CSRF_HEADER :: r[k] == headers[k]
  {
    var withAuth := if !IsAuthEndpoint(url) && Truthy(token) then headers[AUTHORIZATION := Bearer(token.value)] else headers;
    if !IsGet(httpMethod) && Truthy(csrf) then withAuth[CSRF_HEADER := csrf.value] else withAuth
  }

  /**
   * The request interceptor: reads the access token from storage and the CSRF
   * token from the cookie jar, and sets the headers of `OutgoingHeaders`.
   */
  method InterceptRequest(config: RequestConfig, storage: LocalStorage, jar: CookieJar)
    requires jar.Valid()
    modifies config
    ensures config.headers == Some(OutgoingHeaders(
              old(if config.headers.Some? then config.headers.value else map[]), config.url, config.httpMethod,
              storage.GetItem(TokenService.ACCESS_TOKEN_KEY), TokenService.CsrfCookieValue(jar.cookies)))
    ensures config.url == old(config.url) && config.httpMethod == old(config.httpMethod)
    ensures config.retry == old(config.retry) && config.csrfRetry == old(config.csrfRetry)
  {
    if config.headers.None? {
      config.headers := Some(map[]);
    }
    if !IsAuthEndpoint(config.url) {
      var token := storage.GetItem(TokenService.ACCESS_TOKEN_KEY);
      if Truthy(token) {
        config.SetHeader(AUTHORIZATION, Bearer(token.value));
      }
    }
    if !IsGet(config.httpMethod) {
      var csrf := TokenService.GetCsrfToken(jar);
      if Truthy(csrf) {
        config.SetHeader(CSRF_HEADER, csrf.value);
      }
    }
  }

  // ---------------------------------------------------------------------
  // Response interceptor
  // ---------------------------------------------------------------------

  /** The body of `/auth/refresh`. */
  datatype TokenResponse = TokenResponse(token: string, refreshToken: string)

  /** What the response interceptor does with a failed request: send it again, or reject. */
  datatype Decision = Replay | Reject(error: Thrown)

  /**
   * The response interceptor's error handler. `csrfRefresh` is the outcome of
   * `POST /auth/refresh-csrf` (its `csrfToken` field) and `refresh` that of
   * `POST /auth/refresh`; each is consulted only on the branch that sends it.
   * `pathname` is the page's current path; `navigateTo` is where the page is
   * sent, if anywhere.
   *
   * A 403 is answered once per request by refreshing the CSRF token; a 401 once
   * per request by refreshing the token pair, which on failure is cleared. A
   * replay always consumes one of the request's two markers, so a request is
   * replayed at most twice.
   */
  method OnResponseError(config: RequestConfig?, error: Thrown, csrfRefresh: Outcome<Option<string>>,
                         refresh: Outcome<TokenResponse>, pathname: string,
                         storage: LocalStorage, jar: CookieJar)
    returns (d: Decision, navigateTo: Option<string>)
    requires jar.Valid()
    modifies config, storage, jar
    ensures jar.Valid()
    // Without a configuration the error is passed on untouched.
    ensures config == null ==> d == Reject(error) && navigateTo.None? && unchanged(storage) && unchanged(jar)
    // A replay always uses up a marker the request did not have.
    ensures d.Replay? ==> config != null && config.ReplaysLeft() < old(config.ReplaysLeft())
    ensures config != null ==> config.url == old(config.url) && config.httpMethod == old(config.httpMethod)
    ensures config != null ==> old(config.retry) ==> config.retry
    ensures config != null ==> old(config.csrfRetry) ==> config.csrfRetry
    // 403, first time: refresh the CSRF token and replay with it.
    ensures config != null && Status(error) == Some(403) && !old(config.csrfRetry) ==>
              config.csrfRetry && unchanged(storage) && navigateTo.None? &&
              match csrfRefresh
              case Failed(e) => d == Reject(e)
              case Answered(csrf) =>
                if Truthy(csrf) then
                  d == Replay && config.headers.Some? && Get(config.headers.value, XSRF_HEADER) == csrf
                  && (WellFormed(Cookie(TokenService.CSRF_TOKEN_COOKIE, csrf.value))
                      ==> jar.cookies == Upsert(old(jar.cookies), Cookie(TokenService.CSRF_TOKEN_COOKIE, csrf.value)))
                else d == Reject(error) && jar.cookies == old(jar.cookies)
    // 401, first time: refresh the token pair and replay, or clear it and go to the login page.
    ensures config != null && Status(error) == Some(401) && !old(config.retry) ==>
              config.retry && jar.cookies == old(jar.cookies) &&
              if Truthy(old(storage.GetItem(TokenService.REFRESH_TOKEN_KEY))) && refresh.Answered? then
                d == Replay && navigateTo.None?
                && storage.items == old(storage.items)[TokenService.ACCESS_TOKEN_KEY := refresh.data.token]
                                                      [TokenService.REFRESH_TOKEN_KEY := refresh.data.refreshToken]
                && config.headers.Some? && Get(config.headers.value, AUTHORIZATION) == Some(Bearer(refresh.data.token))
              else
                d == Reject(if Truthy(old(storage.GetItem(TokenService.REFRESH_TOKEN_KEY))) then refresh.error else NO_REFRESH_TOKEN)
                && storage.items == old(storage.items) - {TokenService.ACCESS_TOKEN_KEY, TokenService.REFRESH_TOKEN_KEY}
                && (navigateTo.Some? <==> !Contains(pathname, LOGIN_PATH))
                && (navigateTo.Some? ==> navigateTo.value == LOGIN_PATH)
    // Anything else is passed on untouched.
    ensures config != null && !(Status(error) == Some(403) && !old(config.csrfRetry))
            && !(Status(error) == Some(401) && !old(config.retry)) ==>
              d == Reject(error) && navigateTo.None? && unchanged(storage) && jar.cookies == old(jar.cookies)
              && config.retry == old(config.retry) && config.csrfRetry == old(config.csrfRetry)
  {
    navigateTo := None;
    if config == null {
      return Reject(error), None;
    }
    if Status(error) == Some(403) && !config.csrfRetry {
      config.csrfRetry := true;
      match csrfRefresh {
        case Failed(e) =>
          return Reject(e), None;
        case Answered(csrf) =>
          if Truthy(csrf) {
            TokenService.SetCsrfToken(jar, csrf.value);
            config.SetHeader(XSRF_HEADER, csrf.value);
            return Replay, None;
          }
      }
    }
    if Status(error) == Some(401) && !config.retry {
      config.retry := true;
      var refreshToken := storage.GetItem(TokenService.REFRESH_TOKEN_KEY);
      var failure: Thrown;
      if !Truthy(refreshToken) {
        failure := NO_REFRESH_TOKEN;
      } else if refresh.Answered? {
        TokenService.SetTokens(storage, refresh.data.token, refresh.data.refreshToken);
        config.SetHeader(AUTHORIZATION, Bearer(refresh.data.token));
        return Replay, None;
      } else {
        failure := refresh.error;
      }
      TokenService.ClearTokens(storage);
      if !Contains(pathname, LOGIN_PATH) {
        navigateTo := Some(LOGIN_PATH);
      }
      return Reject(failure), navigateTo;
    }
    return Reject(error), None;
  }

  // ---------------------------------------------------------------------
  // A request through the interceptor, end to end
  // ---------------------------------------------------------------------

  /** How a request sent through the instance settles. */
  datatype Settled = Fulfilled | Rejected

  /** How many more replays the markers allow. */
  function MarkersLeft(retry: bool, csrfRetry: bool): (n: nat)
    ensures n <= 2
    ensures n == 0 <==> retry && csrfRetry
  {
    (if retry then 0 else 1) + (if csrfRetry then 0 else 1)
  }

  /**
   * A request sent through the instance with the markers `retry` and
   * `csrfRetry`, against a server that answers the requests it receives with
   * the statuses `answers` in turn: how it settles and how many answers that
   * took, or `None` when every answer was used and a request is still
   * outstanding.
   *
   * A first 403 sends `POST /auth/refresh-csrf` and a first 401 sends
   * `POST /auth/refresh`; once that request is fulfilled the original is
   * replayed with the marker set, and when it is rejected so is the original.
   * `exempt` says whether those two requests of the handler skip the error
   * handler, which they do not as written: they leave without markers, so their
   * own 403 or 401 starts another round. A 2xx answer to `/auth/refresh-csrf`
   * is taken to carry a token and one to `/auth/refresh` a token pair, and a
   * refresh token is stored when the first 401 arrives (a failed refresh
   * clears it, but after that only rejections travel back up).
   */
  function Exchange(retry: bool, csrfRetry: bool, exempt: bool, answers: seq<int>): (r: Option<(Settled, nat)>)
    ensures r.Some? ==> 1 <= r.value.1 <= |answers|
    decreases |answers|
  {
    if answers == [] then None
    else if 200 <= answers[0] < 300 then Some((Fulfilled, 1))
    else if (answers[0] == 403 && !csrfRetry) || (answers[0] == 401 && !retry) then
      var csrf := answers[0] == 403 && !csrfRetry;
      match Exchange(exempt, exempt, exempt, answers[1..])
      case None => None
      case Some((Rejected, k)) => Some((Rejected, k + 1))
      case Some((Fulfilled, k)) =>
        // The replay carries the marker just set.
        var replayed := if csrf then Exchange(retry, true, exempt, answers[k + 1..])
                        else Exchange(true, csrfRetry, exempt, answers[k + 1..]);
        match replayed
        case None => None
        case Some((s, j)) => Some((s, k + 1 + j))
    else Some((Rejected, 1))
  }

  /** A request settles on the last answer it uses, and is fulfilled exactly when that one is a 2xx. */
  lemma {:induction false} SettlesOnLastAnswer(retry: bool, csrfRetry: bool, exempt: bool, answers: seq<int>)
    ensures Exchange(retry, csrfRetry, exempt, answers).Some? ==>
              (Exchange(retry, csrfRetry, exempt, answers).value.0 == Fulfilled
               <==> 200 <= answers[Exchange(retry, csrfRetry, exempt, answers).value.1 - 1] < 300)
    decreases |answers|, 1
  {
    if answers != [] && !(200 <= answers[0] < 300)
       && ((answers[0] == 403 && !csrfRetry) || (answers[0] == 401 && !retry)) {
      HandledOnLastAnswer(retry, csrfRetry, exempt, answers);
    }
  }

  /** The same when the handler sends a request of its own. */
  lemma {:induction false} HandledOnLastAnswer(retry: bool, csrfRetry: bool, exempt: bool, answers: seq<int>)
    requires answers != [] && !(200 <= answers[0] < 300)
    requires (answers[0] == 403 && !csrfRetry) || (answers[0] == 401 && !retry)
    ensures Exchange(retry, csrfRetry, exempt, answers).Some? ==>
              (Exchange(retry, csrfRetry, exempt, answers).value.0 == Fulfilled
               <==> 200 <= answers[Exchange(retry, csrfRetry, exempt, answers).value.1 - 1] < 300)
    decreases |answers|, 0
  {
    var sent := Exchange(exempt, exempt, exempt, answers[1..]);
    if sent.Some? {
      var k := sent.value.1;
      if sent.value.0 == Rejected {
        SettlesOnLastAnswer(exempt, exempt, exempt, answers[1..]);
        assert answers[1..][k - 1] == answers[k];
      } else {
        if answers[0] == 403 && !csrfRetry {
          ReplayedOnLastAnswer(retry, csrfRetry, exempt, answers, k, retry, true);
        } else {
          ReplayedOnLastAnswer(retry, csrfRetry, exempt, answers, k, true, csrfRetry);
        }
      }
    }
  }

  /**
   * The same when the handler's request was fulfilled and the original is
   * replayed with the marker `replayRetry` or `replayCsrf` just set.
   */
  lemma {:induction false} ReplayedOnLastAnswer(retry: bool, csrfRetry: bool, exempt: bool, answers: seq<int>, k: nat,
                                                 replayRetry: bool, replayCsrf: bool)
    requires answers != [] && !(200 <= answers[0] < 300)
    requires (answers[0] == 403 && !csrfRetry) || (answers[0] == 401 && !retry)
    requires Exchange(exempt, exempt, exempt, answers[1..]) == Some((Fulfilled, k))
    requires answers[0] == 403 && !csrfRetry ==> replayRetry == retry && replayCsrf
    requires !(answers[0] == 403 && !csrfRetry) ==> replayRetry && replayCsrf == csrfRetry
    ensures Exchange(retry, csrfRetry, exempt, answers).Some? ==>
              (Exchange(retry, csrfRetry, exempt, answers).value.0 == Fulfilled
               <==> 200 <= answers[Exchange(retry, csrfRetry, exempt, answers).value.1 - 1] < 300)
    decreases |answers| - 1, 3
  {
    ReplayOnLastAnswer(replayRetry, replayCsrf, exempt, answers, k);
  }

  /** The replay after the handler's request, which used `k` answers, settles on its own last answer. */
  lemma {:induction false} ReplayOnLastAnswer(retry: bool, csrfRetry: bool, exempt: bool, answers: seq<int>, k: nat)
    requires 1 <= k < |answers|
    ensures var r := Exchange(retry, csrfRetry, exempt, answers[k + 1..]);
            r.Some? ==> (r.value.0 == Fulfilled <==> 200 <= answers[k + r.value.1] < 300)
    decreases |answers| - k - 1, 2
  {
    var rest := answers[k + 1..];
    SettlesOnLastAnswer(retry, csrfRetry, exempt, rest);
    var r := Exchange(retry, csrfRetry, exempt, rest);
    if r.Some? {
      assert rest[r.value.1 - 1] == answers[k + r.value.1];
    }
  }

  /**
   * As written, a server that keeps answering 401 keeps a request that was
   * not yet retried for a 401 going: each refresh request is answered 401 and
   * starts another refresh, and no number of answers settles it.
   */
  lemma {:induction false} RefreshAsWrittenNeverSettles(csrfRetry: bool, n: nat)
    ensures Exchange(false, csrfRetry, false, seq(n, _ => 401)) == None
  {
    if n > 0 {
      var answers := seq(n, _ => 401);
      assert answers[1..] == seq(n - 1, _ => 401);
      RefreshAsWrittenNeverSettles(false, n - 1);
    }
  }

  /**
   * As written, a server that keeps answering 403 keeps a request that was
   * not yet retried for a 403 going: each `/auth/refresh-csrf` request is
   * answered 403 and starts another one.
   */
  lemma {:induction false} CsrfRefreshAsWrittenNeverSettles(retry: bool, n: nat)
    ensures Exchange(retry, false, false, seq(n, _ => 403)) == None
  {
    if n > 0 {
      var answers := seq(n, _ => 403);
      assert answers[1..] == seq(n - 1, _ => 403);
      CsrfRefreshAsWrittenNeverSettles(false, n - 1);
    }
  }

  /**
   * With the handler's own requests exempt, as the interceptor evidently
   * intends, such a request settles on its first answer: it is fulfilled
   * exactly on a 2xx, and any other answer (a 401 to `/auth/refresh`
   * included) rejects it, which is the rejection `OnResponseError` passes on
   * after clearing both tokens.
   */
  lemma RefreshCorrected(answers: seq<int>)
    requires answers != []
    ensures Exchange(true, true, true, answers).Some?
    ensures Exchange(true, true, true, answers).value.1 == 1
    ensures Exchange(true, true, true, answers).value.0 == Fulfilled <==> 200 <= answers[0] < 300
  {
  }

  /**
   * With the handler's own requests exempt, every request settles: each
   * replay costs two answers (the handler's request and the replay) and uses
   * up a marker, so a request needs at most `1 + 2 * MarkersLeft` answers.
   */
  lemma {:induction false} CorrectedSettles(retry: bool, csrfRetry: bool, answers: seq<int>)
    ensures |answers| >= 1 + 2 * MarkersLeft(retry, csrfRetry) ==> Exchange(retry, csrfRetry, true, answers).Some?
    ensures Exchange(retry, csrfRetry, true, answers).Some? ==>
              Exchange(retry, csrfRetry, true, answers).value.1 <= 1 + 2 * MarkersLeft(retry, csrfRetry)
    decreases MarkersLeft(retry, csrfRetry)
  {
    if answers != [] && !(200 <= answers[0] < 300)
       && ((answers[0] == 403 && !csrfRetry) || (answers[0] == 401 && !retry)) {
      var csrf := answers[0] == 403 && !csrfRetry;
      if |answers| >= 2 {
        RefreshCorrected(answers[1..]);
        if Exchange(true, true, true, answers[1..]).value.0 == Fulfilled {
          CorrectedSettles(retry || !csrf, csrfRetry || csrf, answers[2..]);
        }
      }
    }
  }

  /**
   * The refresh request as written and as corrected agree unless its first
   * answer is 401 or 403; on those the corrected one rejects at once and the
   * one as written sends at least one more request.
   */
  lemma RefreshCorrectedAgrees(answers: seq<int>)
    requires answers != []
    ensures answers[0] != 401 && answers[0] != 403 ==>
              Exchange(false, false, false, answers) == Exchange(true, true, true, answers)
    ensures answers[0] == 401 || answers[0] == 403 ==> Exchange(true, true, true, answers) == Some((Rejected, 1))
    ensures (answers[0] == 401 || answers[0] == 403) && Exchange(false, false, false, answers).Some? ==>
              Exchange(false, false, false, answers).value.1 >= 2
  {
  }

  // ---------------------------------------------------------------------
  // handleError
  // ---------------------------------------------------------------------

  datatype ErrorResponse = ErrorResponse(code: string, message: string, details: Option<string>)

  /** `response.data.code`, `message` and `details` of an error from the HTTP client. */
  function DataCode(e: Thrown): Option<string> {
    if Data(e).Some? then Data(e).value.code else None
  }

  function DataDetails(e: Thrown): Option<string> {
    if Data(e).Some? then Data(e).value.details else None
  }

  /**
   * `handleError`: an error from the HTTP client yields the server's code and
   * message, falling back to `ERROR` and a generic message; any other error
   * yields `UNKNOWN_ERROR` with its own message or a generic one. Code and
   * message are never empty.
   */
  function HandleError(e: Thrown): (r: ErrorResponse)
    ensures r.code != "" && r.message != ""
    ensures e.ObjectError? && e.isAxios ==>
              r.details == DataDetails(e)
              && (Truthy(DataCode(e)) ==> r.code == DataCode(e).value)
              && (!Truthy(DataCode(e)) ==> r.code == "ERROR")
              && (Truthy(DataMessage(e)) ==> r.message == DataMessage(e).value)
              && (!Truthy(DataMessage(e)) ==> r.message == "An error occurred")
    ensures !(e.ObjectError? && e.isAxios) ==>
              r.code == "UNKNOWN_ERROR" && r.details.None?
              && (Truthy(Message(e)) ==> r.message == Message(e).value)
              && (!Truthy(Message(e)) ==> r.message == "An unknown error occurred")
  {
    if e.ObjectError? && e.isAxios then
      ErrorResponse(OrElse(DataCode(e), None, "ERROR"), OrElse(DataMessage(e), None, "An error occurred"), DataDetails(e))
    else
      ErrorResponse("UNKNOWN_ERROR", OrElse(Message(e), None, "An unknown error occurred"), None)
  }
}
