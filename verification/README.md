# Session, scope and document-processing core of the XML processor

This project models, in Dafny, the core of a multi-tenant XML integration
console. Operators sign in, pick a client (a tenant) and one of its
interfaces (a data contract), and upload or process documents against the
back end. The model covers two halves of that system.

**Front end (TypeScript/React).**
- Token storage and validity: `tokenService.ts`, `services/tokenManager.ts`, `utils/tokenManager.ts`.
- The axios interceptors that attach the bearer and CSRF headers and replay a request once after a 401 or 403: `apiService.ts`.
- Login, logout, token refresh and validation: `authService.ts` and `AuthContext.tsx`.
- The client and interface selection contexts: `ClientInterfaceContext.tsx` and `ClientContext.tsx`.
- Error-message mapping (`errorHandler.ts`) and the upload validators (`fileUploadService.ts`).

Browser `localStorage` and `document.cookie` are classes holding maps (module `Browser`). A network answer is a parameter. An asynchronous operation is split into the step that issues the request and the step that handles its answer, so that interleavings can be stated.

**Back end (Java/Spring).**
- The login rate limiter with its exponential backoff (`EnhancedRateLimiter`).
- The in-memory JWT blacklist and the JWT authentication filter's decision flow.
- Document processing strategies: the common rule loop and string transformations (`AbstractDocumentProcessingStrategy`), the XML strategy, the ASN strategy, and the strategy selection service.
- XML structure and content validation (`XmlValidationServiceImpl`).
- The `MappingRule` entity's fallback accessors, and the mapping-rule service's create, update, delete, filter and page slicing.
- The per-client performance monitor, and client onboarding and cloning.

Maps the services mutate are `map` fields of classes. The clock is a `now` parameter in milliseconds. A parsed DOM is a finite tree of elements (module `XmlDom`) whose `getElementsByTagName` is the pre-order list of matching descendants.

Several Java and JavaScript behaviours are spelt out explicitly:
- Java `long` division truncates toward zero.
- Java `split` drops trailing empty strings. So a trailing `/` in a mapping path is ignored, while a leading `/` before a name yields an empty first part, which `createElement` rejects. A path of slashes only splits into no parts, and the walk ends on the document element.
- Java `trim` removes every character up to U+0020.
- `\d` matches ASCII digits only.
- `HashMap` accepts a `null` key; keys are `Option` values.
- `Long.parseLong` accepts one optional sign and ASCII digits whose value lies in the `long` range.

The code has no request coalescing for token refresh, no generation counters or debounce on the client list, and it does not clear a persisted selection that is absent from a loaded list. The model has none of these either.

## Model

| member | source | states |
|---|---|---|
| ClientInterfaceContext.ClientInterfaceState.constructor | frontend/src/context/ClientInterfaceContext.tsx:28-36 | the context starts unauthenticated and not loading, with no clients, interfaces, selections, roles, error or current request |
| ClientInterfaceContext.ClientInterfaceState.ClearAllData | frontend/src/context/ClientInterfaceContext.tsx:38-44 | clients, interfaces, both selections and the error are emptied; authentication, roles, loading and storage are untouched |
| ClientInterfaceContext.ClientInterfaceState.SetSelectedClient | frontend/src/context/ClientInterfaceContext.tsx:213-222 | the client becomes selected and the selected interface is always dropped; a client's id is persisted under `selectedClientId`, no client removes both persisted selections (lines 46-49), and no other key changes |
| ClientInterfaceContext.ClientInterfaceState.BeginRefreshClients | frontend/src/context/ClientInterfaceContext.tsx:123-146 | unauthenticated or already loading: nothing changes and no request is issued; otherwise the current controller is aborted, a fresh one becomes current and loading starts |
| ClientInterfaceContext.ClientInterfaceState.FailClients | frontend/src/context/ClientInterfaceContext.tsx:161-180 | a 401 ends the session (unauthenticated, scope cleared, fixed message); a 403 keeps the list and sets the permission message; any other failure keeps the list and sets `Failed to load clients: <message>` |
| ClientInterfaceContext.ClientInterfaceState.CompleteRefreshClientsAsWritten | frontend/src/context/ClientInterfaceContext.tsx:147-186 | as written: the staleness test reads the newest controller, so any answer, even to a superseded request, replaces the client list (`content` or the empty list) and clears the error, leaving interfaces, selections and authentication alone; an abort changes nothing; any other failure is handled as in `FailClients` (a 401 ends the session, a 403 sets the permission message, the rest `Failed to load clients: <message>`); loading ends whenever a controller was current |
| ClientInterfaceContext.ClientInterfaceState.CompleteRefreshClients | frontend/src/context/ClientInterfaceContext.tsx:147-186 | corrected: an answer to an aborted request changes nothing; otherwise an answer replaces the list and clears the error, an abort changes nothing, and any other failure is handled as in `FailClients` (a 401 ends the session, a 403 sets the permission message, the rest `Failed to load clients: <message>`); only the current request ends loading and forgets the controller |
| ClientInterfaceContext.ClientInterfaceState.RefreshInterfaces | frontend/src/context/ClientInterfaceContext.tsx:189-211 | nothing unless authenticated with a client selected; then the selected client's interfaces (or the empty list) replace the interfaces, a 401 ends the session, 403 and other failures only set their message, and loading is off at the end |
| ClientInterfaceContext.ClientInterfaceState.CheckAuth | frontend/src/context/ClientInterfaceContext.tsx:52-108 | no stored token: unauthenticated with the scope cleared; a valid token: authenticated, `hasRole` true exactly for the roles it carries, and the first page of clients loaded; an invalid token: unauthenticated, no role held, scope cleared and both stored tokens removed |
| ClientInterfaceContext.ClientInterfaceState.SignIn | frontend/src/context/ClientInterfaceContext.tsx:68-96 | authenticated, with `hasRole` true exactly for the validated roles; a page with `content` replaces the list and clears the error, one without empties the list; a failed load keeps the list and sets the permission message on a 403, `Failed to load initial clients` otherwise; loading is off at the end |
| ClientInterfaceContext.StaleListWinsAsWritten | frontend/src/context/ClientInterfaceContext.tsx:140-155 | as written, when two refreshes answer out of order the superseded request's older list is what is shown |
| ClientInterfaceContext.NewerListWins | frontend/src/context/ClientInterfaceContext.tsx:140-155 | with the corrected completion the same interleaving shows the newer list |
| ClientContext.FindById | frontend/src/contexts/ClientContext.tsx:40 | the result, when present, is a member of the list with the id and no earlier client has it; absent when no client has the id or the id did not parse |
| ClientContext.PersistedIdRestores | frontend/src/contexts/ClientContext.tsx:37-43 | a client's persisted id, parsed back, finds a client with that id whenever the list holds the client |
| ClientContext.ClientState.constructor | frontend/src/contexts/ClientContext.tsx:18-21 | no clients, no selection, no error, not loading |
| ClientContext.ClientState.LoadClients | frontend/src/contexts/ClientContext.tsx:24-58 | unauthenticated: only the error `Authentication required`; success: the loaded list replaces the clients and the persisted client is selected when the list has its id; failure: the error message, and on 401/403 also no clients, no selection and no persisted id; loading is false in every outcome |
| ClientContext.ClientState.SelectClient | frontend/src/contexts/ClientContext.tsx:60-67 | the client becomes selected; its id is written under `selectedClientId`, or the key is removed for no client |
| ClientContext.SelectThenReload | frontend/src/contexts/ClientContext.tsx:37-43 | selecting a client and then reloading a list that holds it restores a client with its id |
| Jwt.ValidAt | frontend/src/services/tokenService.ts:64-87 | true exactly when the token is present, decodes, has a numeric `exp`, and `exp * 1000 > now + 300000` |
| Jwt.ValidAtEarlier | frontend/src/services/tokenManager.ts:47-58 | a token valid at some instant is valid at every earlier one and does not expire within the 5-minute buffer |
| SessionTokens.SetToken | frontend/src/utils/tokenManager.ts:19-22 | both tokens are stored under `access_token` and `refresh_token` and read back by the getters; no other key changes |
| SessionTokens.ClearToken | frontend/src/utils/tokenManager.ts:46-49 | both keys are removed and nothing else changes |
| SessionTokens.IsTokenValid | frontend/src/utils/tokenManager.ts:32-44 | true exactly when a stored token decodes and its `exp`, a number or a numeric string converted to its number, gives `exp * 1000 > now`; false without a token, when decoding fails or for any other `exp` |
| SessionTokens.TextExpAcceptedHereOnly | frontend/src/utils/tokenManager.ts:39 | an `exp` written as a numeric string passes this check while its time lies ahead, and never passes the checks with a `typeof` test |
| SessionTokens.BufferedCheckIsStricter | frontend/src/utils/tokenManager.ts:39 | a token valid under the buffered check is valid under this unbuffered one, and a token in its last five minutes passes only this one |
| TokenManager.SetAccessToken | frontend/src/services/tokenManager.ts:12-14 | the token is stored under `accessToken` and read back; no other key changes |
| TokenManager.SetRefreshToken | frontend/src/services/tokenManager.ts:16-18 | the token is stored under `refreshToken` and read back; no other key changes |
| TokenManager.ClearTokens | frontend/src/services/tokenManager.ts:28-31 | both keys are removed and nothing else changes |
| TokenManager.IsTokenValid | frontend/src/services/tokenManager.ts:33-63 | the provided token when non-empty, else the stored one; false when absent, undecodable or without a numeric `exp`; otherwise true exactly when the expiry lies more than 5 minutes after `now` |
| TokenManager.HasValidAccessToken | frontend/src/services/tokenManager.ts:65-68 | false without a stored token, otherwise the stored token's validity |
| TokenService.SetTokens | frontend/src/services/tokenService.ts:53-56 | both tokens are stored under `auth_token` and `refresh_token`; no other key changes |
| TokenService.ClearTokens | frontend/src/services/tokenService.ts:58-61 | both keys are removed and nothing else changes |
| TokenService.IsTokenValid | frontend/src/services/tokenService.ts:64-87 | the passed token when non-empty, else the stored one; false when absent, undecodable or without a numeric `exp`; else true exactly when `exp * 1000 > now + 300000` |
| TokenService.GetCsrfToken | frontend/src/services/tokenService.ts:90-99 | on a jar of well-formed cookies, the value of the `XSRF-TOKEN` cookie (up to a first `=` in it), and `None` when there is none; the jar is unchanged |
| TokenService.CsrfOfCookies | frontend/src/services/tokenService.ts:91-98 | scanning the `;`-separated cookie text finds exactly the jar's `XSRF-TOKEN` cookie value |
| TokenService.SetCsrfToken | frontend/src/services/tokenService.ts:101-103 | a cookie-safe token becomes the `XSRF-TOKEN` cookie's value, other cookies are kept, and the jar stays well formed |
| TokenService.CsrfRoundTrip | frontend/src/services/tokenService.ts:90-103 | `getCsrfToken` after `setCsrfToken(t)` gives `t` back for a cookie-safe token without `=` |
| TokenService.GetTokenPayload | frontend/src/services/tokenService.ts:106-116 | `None` without a stored token or when decoding throws, else the decoded payload, with no expiry check |
| TokenService.GetUserInfo | frontend/src/services/tokenService.ts:118-126 | `None` exactly when there is no payload; otherwise the subject as username and the roles, defaulting to the empty list |
| ApiService.OutgoingHeaders | frontend/src/services/apiService.ts:40-62 | a URL containing `/auth/` never gains a bearer token; otherwise a non-empty stored token becomes `Bearer <token>`; non-GET requests gain `X-CSRF-TOKEN` only when a CSRF token exists; every other header is kept and no other header is added |
| ApiService.InterceptRequest | frontend/src/services/apiService.ts:40-62 | the request leaves with exactly the headers of `OutgoingHeaders`, built from the stored access token and the `XSRF-TOKEN` cookie; URL, method and both replay markers are unchanged |
| ApiService.OnResponseError | frontend/src/services/apiService.ts:72-135 | no configuration: rejected untouched. A first 403 sets `_csrfRetry`, stores the refreshed CSRF token and replays with `X-XSRF-TOKEN`, or rejects the refresh error. A first 401 sets `_retry`; a stored refresh token and a successful refresh store the new pair and replay with the new bearer; otherwise both tokens are cleared, the refresh error (or `No refresh token available`) is rejected, and the page goes to `/login` unless already there. Any other error is rejected unchanged with no retry, and every replay uses up a marker, so a request is replayed at most twice |
| ApiService.Exchange | frontend/src/services/apiService.ts:72-135 | a request sent through the instance, with the CSRF refresh after a first 403 and the token refresh after a first 401 each sent through the same instance and followed by one replay: when it settles it has used at least one answer and no more than there were |
| ApiService.SettlesOnLastAnswer | frontend/src/services/apiService.ts:72-135 | a request settles on the last answer it uses, and is fulfilled exactly when that answer is a 2xx: a rejection of the handler's own request rejects the original |
| ApiService.HandledOnLastAnswer | frontend/src/services/apiService.ts:79-120 | the same for a request whose 403 or 401 sends the handler's own request |
| ApiService.ReplayedOnLastAnswer | frontend/src/services/apiService.ts:79-120 | the same when the handler's request was fulfilled and the original is replayed with the marker just set |
| ApiService.ReplayOnLastAnswer | frontend/src/services/apiService.ts:92 | the replay settles on its own last answer |
| ApiService.RefreshAsWrittenNeverSettles | frontend/src/services/apiService.ts:101-120 | as written, a server that keeps answering 401 leaves a request not yet retried for a 401 unsettled after any number of answers: each `/auth/refresh` request's 401 starts another refresh |
| ApiService.CsrfRefreshAsWrittenNeverSettles | frontend/src/services/apiService.ts:79-83 | as written, a server that keeps answering 403 leaves a request not yet retried for a 403 unsettled after any number of answers: each `/auth/refresh-csrf` request's 403 starts another CSRF refresh |
| ApiService.RefreshCorrected | frontend/src/services/apiService.ts:101-131 | corrected, with the handler's own requests exempt: the refresh request settles on its first answer and is fulfilled exactly on a 2xx; a 401 to it rejects, which `OnResponseError` answers by clearing both tokens |
| ApiService.CorrectedSettles | frontend/src/services/apiService.ts:72-135 | corrected: every request settles, using at most one answer plus two per replay marker it has left (five answers for a fresh request) |
| ApiService.RefreshCorrectedAgrees | frontend/src/services/apiService.ts:101-131 | the refresh request as written and as corrected agree unless its first answer is 401 or 403; on those the corrected one rejects at once and the written one sends at least one more request |
| ApiService.HandleError | frontend/src/services/apiService.ts:167-184 | an error from the HTTP client gives the server's code (default `ERROR`), its message (default `An error occurred`) and its details; any other error gives `UNKNOWN_ERROR` with its own message or `An unknown error occurred`; code and message are never empty |
| AuthService.HasCsrfPieceOfCookies | frontend/src/services/authService.ts:42-43 | on a jar of well-formed cookies, some piece of the cookie text starts with `XSRF-TOKEN=` exactly when the jar holds an `XSRF-TOKEN` cookie |
| AuthService.Login | frontend/src/services/authService.ts:31-54 | failure: the error is rethrown and nothing changes; success: the token pair is stored, the response is returned, and the CSRF cookie is written from the response only when it carries a token and no `XSRF-TOKEN` cookie exists yet |
| AuthService.LogoutAsWritten | frontend/src/services/authService.ts:56-68 | as written: both paths call `tokenManager.clearTokens`, which the imported helper does not define, so every logout fails with a `TypeError` and storage is unchanged |
| AuthService.LogoutLeavesTokens | frontend/src/services/authService.ts:56-68 | after a logout as written, a stored access token is still there |
| AuthService.Logout | frontend/src/services/authService.ts:56-68 | corrected: both tokens are removed whether the server call succeeds or fails; a failure is rethrown |
| AuthService.RefreshToken | frontend/src/services/authService.ts:74-95 | corrected: without a refresh token it throws `No refresh token available` and nothing changes; success stores the new pair and returns the new access token; failure clears both tokens and rethrows |
| AuthService.RefreshTokenAsWritten | frontend/src/services/authService.ts:74-94 | as written: without a stored refresh token it throws before any request; an answered refresh stores the new pair and returns the new access token; a failed refresh ends in the `TypeError` of the missing `clearTokens` instead of the server's error, and the tokens stay |
| AuthService.IsAuthenticated | frontend/src/services/authService.ts:70-72 | true exactly when the stored access token decodes to a payload whose `exp`, a number or a numeric string, lies after `now`, with no safety margin; so every token that passes the buffered five-minute check passes it too |
| AuthService.GetCurrentUser | frontend/src/services/authService.ts:112-120 | the `/user` answer, or exactly the error `handleApiError` makes of the failure (code, message and details) |
| AuthService.ForgetUser | frontend/src/services/authService.ts:124-128 | only the `user` entry is removed from storage and the page goes to `/login` |
| AuthService.ValidateToken | frontend/src/services/authService.ts:97-110 | never fails: the server's answer, or `{valid: false, username: '', roles: []}` on any error; a valid answer only comes from the server |
| AuthContext.StripRolePrefix | frontend/src/context/AuthContext.tsx:103 | the first `ROLE_` in the role name is removed wherever it stands (a leading one leaves the rest of the name), later ones stay, and a role without `ROLE_` is unchanged |
| Text.ReplaceFirstAt | frontend/src/context/AuthContext.tsx:103 | a string-pattern `replace` substitutes the first occurrence of the pattern and keeps the text before and after it |
| AuthContext.StrippedRole | frontend/src/context/AuthContext.tsx:103 | `ROLE_` followed by a name gives back the name |
| AuthContext.LoginAttempt | frontend/src/context/AuthContext.tsx:125-136 | no request exactly when the trimmed username or password is empty; otherwise the trimmed pair is sent |
| AuthContext.AuthState.constructor | frontend/src/context/AuthContext.tsx:33-35 | no user, not loading, no error |
| AuthContext.AuthState.HasRole | frontend/src/context/AuthContext.tsx:174-176 | false without a user, else whether the user's roles hold the role |
| AuthContext.AuthState.Login | frontend/src/context/AuthContext.tsx:120-160 | true exactly for a sent request answered with 200; empty trimmed input sets `Username and password are required` and sends nothing; a 200 stores `token` and `refreshToken` and sets the authenticated user with the server's roles; a failed request clears the user with `Invalid username or password`; loading is off at the end |
| AuthContext.AuthState.Logout | frontend/src/context/AuthContext.tsx:162-172 | both tokens are removed, user and error are cleared, and afterwards no role is held |
| AuthContext.AuthState.CheckAuthStatus | frontend/src/context/AuthContext.tsx:91-114 | without a stored token the user is cleared and storage untouched; a 200 answer with a body sets the user with `ROLE_` stripped from each role; other answers clear the user; a failed request or a body without roles clears the user and both tokens |
| AuthContext.AuthState.OnResponseError | frontend/src/context/AuthContext.tsx:52-82 | a first 401 marks the request; with a stored refresh token and a refresh that settles fulfilled, only the access token is stored and the request replays with it; a refresh that settles rejected logs out; every other case rejects the original error (whether the refresh settles at all is `Intercepted`'s matter) |
| AuthContext.Intercepted | frontend/src/context/AuthContext.tsx:52-82 | a request through the global client against a sequence of answers: a first 401 with a stored refresh token posts a refresh through the same interceptor, replays on its success and logs out and rejects on its rejection; otherwise it settles on its first answer; a settled request uses between one and all of the answers |
| AuthContext.LogoutOnlyWhenRejected | frontend/src/context/AuthContext.tsx:74-77 | a logout only accompanies a rejected request and a stored refresh token; a fulfilled request never logs out |
| AuthContext.RefreshLoopAsWritten | frontend/src/context/AuthContext.tsx:64 | as written, a server answering 401 to every request never settles a request not yet retried, and `logout` never runs |
| AuthContext.ExemptRefreshSettles | frontend/src/context/AuthContext.tsx:64 | a refresh request that carries the marker settles on its first answer, fulfilled exactly on a 2xx, without a logout |
| AuthContext.CorrectedInterceptorSettles | frontend/src/context/AuthContext.tsx:52-82 | with the refresh exempt, every request settles within three answers; a refused refresh logs out and rejects; a successful refresh replays the request, which settles on its own answer |
| AuthContext.InterceptedAgrees | frontend/src/context/AuthContext.tsx:58 | the interceptor as written and as corrected agree on every request whose first answer does not start a refresh |
| AuthContext.InterceptRequest | frontend/src/context/AuthContext.tsx:40-49 | the stored `token` becomes the bearer header when the request has headers; otherwise the headers are unchanged |
| ErrorHandler.HandleApiError | frontend/src/utils/errorHandler.ts:20-41 | with a `response` property: the server's message, else the error's own; the status as decimal code; the data as details. Another `Error`: its message with `UNKNOWN_ERROR`. Anything else: the generic message with `UNKNOWN_ERROR` |
| ErrorHandler.StatusMessageDefault | frontend/src/utils/errorHandler.ts:71-89 | the default text is given exactly for statuses other than 400, 401, 403, 404 and 500 |
| ErrorHandler.HandleApiErrorOld | frontend/src/utils/errorHandler.ts:58-94 | precedence: validation errors joined by ", ", then the server's message, then the status text; an error without a response gets the generic text |
| ErrorHandler.IsValidationError | frontend/src/utils/errorHandler.ts:96-102 | a validation error always has response data; when its list is not `null`, the text `handleApiErrorOld` shows is exactly that list joined by ", "; an error that is not one yields no validation errors |
| ErrorHandler.GetValidationErrors | frontend/src/utils/errorHandler.ts:104-110 | the list when present, and the empty list otherwise: no response, no data, or an `undefined` or `null` list |
| ErrorHandler.ValidationErrorsAgree | frontend/src/utils/errorHandler.ts:96-110 | errors are reported only for a validation error; a validation error with no errors reported has a `null` or empty list |
| FileUpload.ValidateFileSize | frontend/src/services/fileUploadService.ts:5-10 | true exactly for files of at most 10 485 760 bytes |
| FileUpload.ValidateFileType | frontend/src/services/fileUploadService.ts:12-14 | true exactly when the MIME type is `text/xml` or the name ends in `.xml` in any letter case |
| FileUpload.FileTypeIgnoresCase | frontend/src/services/fileUploadService.ts:13 | upper-casing the file name does not change the type check |
| FileUpload.UploadForm | frontend/src/services/fileUploadService.ts:16-20 | the form holds the file, then the client id and the interface id as decimal text that parses back to them |
| RateLimiter.Counted | backend/src/main/java/com/xml/processor/security/service/EnhancedRateLimiter.java:86-92 | a missing or expired window restarts at count 1 from `now`; a live window keeps its start and counts one more |
| RateLimiter.Unexpired | backend/src/main/java/com/xml/processor/security/service/EnhancedRateLimiter.java:169-174 | exactly the entries whose window has not expired remain, with their values |
| RateLimiter.Fresh | backend/src/main/java/com/xml/processor/security/service/EnhancedRateLimiter.java:177-191 | exactly the backoff entries whose IP or username still has a live counter remain, with their values |
| RateLimiter.BackoffKeyParts | backend/src/main/java/com/xml/processor/security/service/EnhancedRateLimiter.java:179-181 | a key built from an IP and a username without `:` splits back into the IP and the username |
| RateLimiter.ColonUsernameKey | backend/src/main/java/com/xml/processor/security/service/EnhancedRateLimiter.java:179-181 | the username `:` gives a backoff key with no username part after the split |
| RateLimiter.BackoffDoubles | backend/src/main/java/com/xml/processor/security/service/EnhancedRateLimiter.java:117-124 | after `n` consecutive failures the backoff is `min(2^(n-1), 60)` minutes |
| RateLimiter.BackoffCapped | backend/src/main/java/com/xml/processor/security/service/EnhancedRateLimiter.java:117-123 | from the seventh failure on the backoff stays at 60 minutes |
| RateLimiter.PruneBackoff | backend/src/main/java/com/xml/processor/security/service/EnhancedRateLimiter.java:177-191 | succeeds exactly when every key splits into two parts, and then keeps exactly `Fresh`; it only ever removes entries, and never removes a malformed key |
| RateLimiter.EnhancedRateLimiter.constructor | backend/src/main/java/com/xml/processor/security/service/EnhancedRateLimiter.java:26-28 | all three maps start empty |
| RateLimiter.EnhancedRateLimiter.Cleanup | backend/src/main/java/com/xml/processor/security/service/EnhancedRateLimiter.java:165-192 | the IP map keeps its entries within 5 minutes and the username map its entries within an hour; the backoff map becomes `Fresh`, or the cleanup fails with `ArrayIndexOutOfBoundsException` exactly when some key has no username part, having removed only stale entries |
| RateLimiter.EnhancedRateLimiter.CheckSingleRateLimit | backend/src/main/java/com/xml/processor/security/service/EnhancedRateLimiter.java:85-101 | the key's counter in the IP map becomes `Counted`, and the attempt is allowed exactly when that count is at most the maximum |
| RateLimiter.EnhancedRateLimiter.CheckRateLimitAsWritten | backend/src/main/java/com/xml/processor/security/service/EnhancedRateLimiter.java:47-75 | as written: after the cleanup, refused when the IP count exceeds 5, else (for a non-empty username) when the username count, kept in the IP map, exceeds 10, else when the pair has a backoff; fails exactly when the cleanup fails |
| RateLimiter.EnhancedRateLimiter.CheckRateLimit | backend/src/main/java/com/xml/processor/security/service/EnhancedRateLimiter.java:47-75 | corrected: the same decision with the username counter kept in the username map, under its one-hour window |
| RateLimiter.EnhancedRateLimiter.RecordFailedAttempt | backend/src/main/java/com/xml/processor/security/service/EnhancedRateLimiter.java:109-127 | an empty or missing username changes nothing; otherwise the pair's backoff becomes 1 minute, or doubles up to 60; no counter changes |
| RateLimiter.EnhancedRateLimiter.ResetLimit | backend/src/main/java/com/xml/processor/security/service/EnhancedRateLimiter.java:135-149 | the IP counter is removed for a present IP; for a non-empty username its username-map counter is removed, and with a present IP also the pair's backoff |
| RateLimiterScenarios.FiveAttemptsAsWritten | backend/src/main/java/com/xml/processor/security/service/EnhancedRateLimiter.java:51-63 | five allowed attempts for user `u` from one address add five to the username counter held in the IP map |
| RateLimiterScenarios.UsernameWindowAsWritten | backend/src/main/java/com/xml/processor/security/service/EnhancedRateLimiter.java:165-170 | as written: ten attempts for one username within a minute, then an eleventh from a new address 300001 ms later, is allowed |
| RateLimiterScenarios.FiveAttempts | backend/src/main/java/com/xml/processor/security/service/EnhancedRateLimiter.java:51-63 | with the corrected check, five attempts add five to the username counter in the username map |
| RateLimiterScenarios.UsernameWindow | backend/src/main/java/com/xml/processor/security/service/EnhancedRateLimiter.java:19-21 | with the corrected check the same eleventh attempt is refused |
| JwtBlacklist.Live | backend/src/main/java/com/xml/processor/service/impl/InMemoryJwtBlacklistService.java:57-58 | exactly the entries not yet past the JWT lifetime remain, with their instants |
| JwtBlacklist.RemovedAreExpired | backend/src/main/java/com/xml/processor/service/impl/InMemoryJwtBlacklistService.java:55-60 | the size difference across a cleanup is the number of expired entries |
| JwtBlacklist.InMemoryJwtBlacklistService.constructor | backend/src/main/java/com/xml/processor/service/impl/InMemoryJwtBlacklistService.java:20-28 | an empty list with the configured lifetime |
| JwtBlacklist.InMemoryJwtBlacklistService.BlacklistToken | backend/src/main/java/com/xml/processor/service/impl/InMemoryJwtBlacklistService.java:31-34 | the token is recorded at `now`, replacing an earlier entry, and is then listed |
| JwtBlacklist.InMemoryJwtBlacklistService.IsBlacklisted | backend/src/main/java/com/xml/processor/service/impl/InMemoryJwtBlacklistService.java:37-49 | true exactly for a token recorded no longer than the lifetime ago; an unknown token is false; an expired entry is removed and reported false; nothing else changes |
| JwtBlacklist.InMemoryJwtBlacklistService.CleanupExpiredTokens | backend/src/main/java/com/xml/processor/service/impl/InMemoryJwtBlacklistService.java:52-63 | exactly the expired entries are removed, the count reported is the number removed, and which tokens are blacklisted does not change |
| JwtBlacklist.RevokedForLifetime | backend/src/main/java/com/xml/processor/service/impl/InMemoryJwtBlacklistService.java:31-49 | a token revoked at `at` is blacklisted at `now` exactly when `now <= at + jwtExpiration` |
| JwtFilter.SecurityContext.constructor | backend/src/main/java/com/xml/processor/config/JwtAuthenticationFilter.java:57 | the context holds the given authentication |
| JwtFilter.PublicPrefixes | backend/src/main/java/com/xml/processor/config/JwtAuthenticationFilter.java:81-88 | every path under the login, refresh, validate or H2 console prefix skips authentication |
| JwtFilter.ClientApiIsProtected | backend/src/main/java/com/xml/processor/config/JwtAuthenticationFilter.java:81-88 | no path starting with `/api/c` skips authentication |
| JwtFilter.ErrorIsExact | backend/src/main/java/com/xml/processor/config/JwtAuthenticationFilter.java:86 | `/error` skips authentication but no longer path starting with it does |
| JwtFilter.LogoutIsProtected | backend/src/main/java/com/xml/processor/config/JwtAuthenticationFilter.java:81-88 | `/api/auth/logout` does not skip authentication |
| JwtFilter.Admitted | backend/src/main/java/com/xml/processor/config/JwtAuthenticationFilter.java:40-73 | a user is admitted only on a protected path with a token whose username was extracted without an exception, with no authentication set yet, and with a token that is not revoked |
| JwtFilter.AdmittedExactly | backend/src/main/java/com/xml/processor/config/JwtAuthenticationFilter.java:53-69 | on a protected path with a token, the user is admitted exactly when every step succeeds and the token is valid for the user and not revoked |
| JwtFilter.DoFilterInternal | backend/src/main/java/com/xml/processor/config/JwtAuthenticationFilter.java:31-79 | the chain always continues; the authentication becomes the admitted user with the token as credentials and the user's authorities, and otherwise stays as it was; the blacklist is consulted only after the validity check passed, and only drops expired entries |
| MappingRules.XmlPathOf | backend/src/main/java/com/xml/processor/model/MappingRule.java:69-71 | the XML path when set, else `sourceField`; null only when both are null |
| MappingRules.DatabaseFieldOf | backend/src/main/java/com/xml/processor/model/MappingRule.java:80-82 | the database field when set, else `targetField`; null only when both are null |
| MappingRules.InterfaceIdOf | backend/src/main/java/com/xml/processor/model/MappingRule.java:100-102 | the interface's id, and null without an interface |
| MappingRules.XmlPathRoundTrip | backend/src/main/java/com/xml/processor/model/MappingRule.java:69-78 | after `setXmlPath(p)` the path reads `p`, or the old `sourceField` for a null `p`; a set `sourceField` never changes, so the first path ever set stays in it |
| MappingRules.DatabaseFieldRoundTrip | backend/src/main/java/com/xml/processor/model/MappingRule.java:80-89 | the same for `setDatabaseField` and `targetField` |
| MappingRules.InterfaceIdRoundTrip | backend/src/main/java/com/xml/processor/model/MappingRule.java:100-109 | after `setInterfaceId(id)` the id reads back; a null id changes nothing |
| MappingRules.MappingRule.constructor | backend/src/main/java/com/xml/processor/model/MappingRule.java:62-63 | a new rule has every field null except `isAttribute`, which is false |
| MappingRules.MappingRule.SetXmlPath | backend/src/main/java/com/xml/processor/model/MappingRule.java:73-78 | the path is set, `sourceField` only while null, and the path then reads back |
| MappingRules.MappingRule.SetDatabaseField | backend/src/main/java/com/xml/processor/model/MappingRule.java:84-89 | the field is set, `targetField` only while null, and the field then reads back |
| MappingRules.MappingRule.SetAttribute | backend/src/main/java/com/xml/processor/model/MappingRule.java:91-97 | the flag is set and `isAttribute()` reads it back |
| MappingRules.MappingRule.SetInterfaceId | backend/src/main/java/com/xml/processor/model/MappingRule.java:104-109 | a non-null id points the rule at an interface with that id; a null id changes nothing |
| MappingRuleService.SliceAsWritten | backend/src/main/java/com/xml/processor/service/impl/MappingRuleServiceImpl.java:169-175 | as written: fails exactly when the offset lies past the end of the list; otherwise the page is `rows[offset..min(offset + size, n)]` with total `n` |
| MappingRuleService.PastEndThrows | backend/src/main/java/com/xml/processor/service/impl/MappingRuleServiceImpl.java:171-173 | a one-rule list asked for page 1 of size 2 (offset 2) throws instead of giving an empty page |
| MappingRuleService.Slice | backend/src/main/java/com/xml/processor/service/impl/MappingRuleServiceImpl.java:170-174 | corrected: the total is `n`; the page holds `min(size, n - offset)` rules (none past the end), and they are the rules from `offset` on, in order |
| MappingRuleService.SliceAgrees | backend/src/main/java/com/xml/processor/service/impl/MappingRuleServiceImpl.java:170-174 | wherever the code as written returns a page, it is the corrected page |
| MappingRuleService.SlicesJoin | backend/src/main/java/com/xml/processor/service/impl/MappingRuleServiceImpl.java:170-174 | two consecutive pages together are the page spanning both |
| MappingRuleService.ChooseQuery | backend/src/main/java/com/xml/processor/service/impl/MappingRuleServiceImpl.java:149-159 | a name filter wins, with or without a status filter; otherwise a status filter; otherwise all rules |
| MappingRuleService.StatusIgnoredWithName | backend/src/main/java/com/xml/processor/service/impl/MappingRuleServiceImpl.java:150-156 | with both filters the status filter changes nothing; a status filter alone returns exactly the stored rules with that status |
| MappingRuleService.FindIndex | backend/src/main/java/com/xml/processor/service/impl/MappingRuleServiceImpl.java:44-50 | the first stored rule with the id in the scope of the client context (any client without one); none exactly when no stored rule is in scope |
| MappingRuleService.UpdateReplaces | backend/src/main/java/com/xml/processor/service/impl/MappingRuleServiceImpl.java:66-82 | an update copies every listed field, null ones included: the result depends only on the stored rule's id, client and interface, keeps them, and reads the details' path and database field |
| MappingRuleService.MappingRuleServiceImpl.constructor | backend/src/main/java/com/xml/processor/service/impl/MappingRuleServiceImpl.java:26-30 | the service holds the given stored rules |
| MappingRuleService.MappingRuleServiceImpl.GetMappingRuleById | backend/src/main/java/com/xml/processor/service/impl/MappingRuleServiceImpl.java:42-50 | a stored rule with the id in the scope of the client context, and none exactly when no stored rule is in scope |
| MappingRuleService.MappingRuleServiceImpl.CreateMappingRule | backend/src/main/java/com/xml/processor/service/impl/MappingRuleServiceImpl.java:32-40 | a rule without a client gets the context's client (when there is one), a rule with a client keeps it, and the rule is appended to the store |
| MappingRuleService.MappingRuleServiceImpl.UpdateMappingRule | backend/src/main/java/com/xml/processor/service/impl/MappingRuleServiceImpl.java:52-85 | no rule in scope: `Mapping rule not found with id: <id>` and nothing changes; otherwise the rule in scope is replaced by the copy of the details, and the copy is returned |
| MappingRuleService.MappingRuleServiceImpl.DeleteMappingRule | backend/src/main/java/com/xml/processor/service/impl/MappingRuleServiceImpl.java:87-97 | with a client context, the rules with the id are deleted only when that client owns one; without one they are deleted unconditionally; nothing else is removed |
| MappingRuleService.MappingRuleServiceImpl.FindByTableNameAndClientId | backend/src/main/java/com/xml/processor/service/impl/MappingRuleServiceImpl.java:167-175 | as written: fails with the `subList` range error exactly when the offset lies past the client's rules for that table; otherwise the page is those rules from the offset on, at most `size` of them, with their count as total, which is the corrected `Slice`; every rule on it is a stored rule of that client and table |
| MappingRuleService.MappingRuleServiceImpl.GetActiveMappingRules | backend/src/main/java/com/xml/processor/service/impl/MappingRuleServiceImpl.java:177-189 | an unknown interface fails with `Interface not found with id: <id>`, an interface without a client fails with a null dereference; otherwise, as written, the range error exactly when the offset lies past the owning client's active rules, and else the page of those rules from the offset on with their count as total, which is the corrected `Slice` |
| MappingRuleService.TableRules | backend/src/main/java/com/xml/processor/service/impl/MappingRuleServiceImpl.java:170 | the repository query returns exactly the stored rules of that table and client |
| MappingRuleService.ActiveRules | backend/src/main/java/com/xml/processor/service/impl/MappingRuleServiceImpl.java:183 | the repository query returns exactly the stored active rules of that client |
| MappingRuleService.ScopedDeleteRemovesOwnRule | backend/src/main/java/com/xml/processor/service/impl/MappingRuleServiceImpl.java:90-93 | with unique ids, a scoped delete removes only a rule of the context's client |
| StrategyService.Handlers | backend/src/main/java/com/xml/processor/service/DocumentProcessingStrategyService.java:27-28 | exactly the registered strategies that handle the type |
| StrategyService.MaxByPriority | backend/src/main/java/com/xml/processor/service/DocumentProcessingStrategyService.java:29 | none exactly for no candidates; otherwise a candidate whose priority no other candidate exceeds |
| StrategyService.GetStrategy | backend/src/main/java/com/xml/processor/service/DocumentProcessingStrategyService.java:21-37 | a null interface or type throws `IllegalArgumentException`; the strategy returned is registered, handles the type and has maximal priority among the handlers; without a handler the call throws `RuntimeException` naming the type |
| StrategySelection.RegisteredSelection | backend/src/main/java/com/xml/processor/service/DocumentProcessingStrategyService.java:21-37 | with the XML and ASN strategies registered: `XML` in any case selects the XML strategy, `ASN` in any case the ASN strategy, any other type throws naming it, and a null interface or type is refused |
| StrategySelection.AsnCanHandleAgrees | backend/src/main/java/com/xml/processor/service/strategy/AsnDocumentProcessingStrategy.java:34-36 | the ASN strategy's `canHandle` is the case-insensitive type test of the selection |
| StrategySelection.AsnSample | backend/src/main/java/com/xml/processor/service/strategy/AsnDocumentProcessingStrategy.java:34-36 | example: an interface of type `asn` gets the ASN strategy |
| StrategySelection.UnknownTypeSample | backend/src/main/java/com/xml/processor/service/DocumentProcessingStrategyService.java:31-34 | example: an interface of type `EDI` fails with `No processing strategy found for interface type: EDI` |
| AbstractStrategy.ApplyTransformation | backend/src/main/java/com/xml/processor/service/strategy/AbstractDocumentProcessingStrategy.java:82-138 | null stays null; a null or blank value is returned as it is; otherwise the lower-cased selector picks `uppercase`, `lowercase` or `trim`, the library conversions keep the value when they throw, and any other selector keeps the value |
| AbstractStrategy.SelectorIgnoresCase | backend/src/main/java/com/xml/processor/service/strategy/AbstractDocumentProcessingStrategy.java:88 | selectors equal up to case transform every value alike |
| AbstractStrategy.UpperIdempotent | backend/src/main/java/com/xml/processor/service/strategy/AbstractDocumentProcessingStrategy.java:89-90 | upper-casing twice is upper-casing once |
| AbstractStrategy.LowerIdempotent | backend/src/main/java/com/xml/processor/service/strategy/AbstractDocumentProcessingStrategy.java:92-93 | lower-casing twice is lower-casing once |
| AbstractStrategy.TrimIdempotent | backend/src/main/java/com/xml/processor/service/strategy/AbstractDocumentProcessingStrategy.java:95-96 | trimming twice is trimming once |
| AbstractStrategy.CaseKeepsBlankness | backend/src/main/java/com/xml/processor/service/strategy/AbstractDocumentProcessingStrategy.java:83-93 | changing case neither makes a value blank nor non-blank |
| AbstractStrategy.StringCasesIdempotent | backend/src/main/java/com/xml/processor/service/strategy/AbstractDocumentProcessingStrategy.java:82-96 | applying `uppercase`, `lowercase` or `trim` a second time changes nothing |
| AbstractStrategy.RuleValue | backend/src/main/java/com/xml/processor/service/strategy/AbstractDocumentProcessingStrategy.java:49-62 | no node: the default value when non-empty, else none; a node and no transformation: the node's text; a node and a transformation: the transformed text |
| AbstractStrategy.CollectMeaning | backend/src/main/java/com/xml/processor/service/strategy/AbstractDocumentProcessingStrategy.java:41-79 | the loop throws exactly when some rule is required and its evaluation throws, with the message of the first such rule; otherwise a database field is in the result exactly when some rule yields a value for it, and holds the value of the last such rule |
| AbstractStrategy.AbortIsFinal | backend/src/main/java/com/xml/processor/service/strategy/AbstractDocumentProcessingStrategy.java:71-76 | once a required rule has aborted the loop, later rules change nothing |
| AbstractStrategy.ProcessDocument | backend/src/main/java/com/xml/processor/service/strategy/AbstractDocumentProcessingStrategy.java:34-80 | the loop over the rules computes `Collect`, whose meaning `CollectMeaning` states |
| XmlValidation.RulesFor | backend/src/main/java/com/xml/processor/service/impl/XmlValidationServiceImpl.java:116-177 | rules exist exactly for `INVOICE`, `ORDER` and `SHIPMENT`, each with four root elements and three elements per item |
| XmlValidation.StructureErrorMeaning | backend/src/main/java/com/xml/processor/service/impl/XmlValidationServiceImpl.java:44-73 | the structural check passes exactly when there is a root with a non-empty namespace and a `version` attribute; otherwise it fails with exactly one of its three messages, no root first |
| XmlValidation.FilledIffPresent | backend/src/main/java/com/xml/processor/service/impl/XmlValidationServiceImpl.java:180-187 | the probe finds a filled element exactly when the first element of that name exists and its trimmed text is non-empty |
| XmlValidation.Messages | backend/src/main/java/com/xml/processor/service/impl/XmlValidationServiceImpl.java:179-189 | at most one message per check, and none exactly for a filled element |
| XmlValidation.ErrorsEmpty | backend/src/main/java/com/xml/processor/service/impl/XmlValidationServiceImpl.java:118-121 | a run of checks reports nothing exactly when every element is filled, and reports at most one message per name |
| XmlValidation.ElementErrorsEmpty | backend/src/main/java/com/xml/processor/service/impl/XmlValidationServiceImpl.java:179-189 | the checks of a list of names under an element report nothing exactly when each of those elements is present and non-blank |
| XmlValidation.ContentValidIff | backend/src/main/java/com/xml/processor/service/impl/XmlValidationServiceImpl.java:116-177 | the content checks of a type report nothing exactly when its four root elements are present and non-blank, there is at least one item, and every item has its three elements present and non-blank |
| XmlValidation.NoItemsReported | backend/src/main/java/com/xml/processor/service/impl/XmlValidationServiceImpl.java:124-126 | a document without items carries the type's "at least one item" message |
| XmlValidation.ContentMessageMeaning | backend/src/main/java/com/xml/processor/service/impl/XmlValidationServiceImpl.java:76-109 | the content check passes exactly when the type is known, the root exists and no required element is missing or blank |
| XmlValidation.XmlValidationServiceImpl.constructor | backend/src/main/java/com/xml/processor/service/impl/XmlValidationServiceImpl.java:23-25 | no message is held |
| XmlValidation.XmlValidationServiceImpl.ValidateXmlStructure | backend/src/main/java/com/xml/processor/service/impl/XmlValidationServiceImpl.java:43-73 | passes exactly when there is no structural error, and keeps that error as the message (null on a pass) |
| XmlValidation.XmlValidationServiceImpl.ValidateXmlContent | backend/src/main/java/com/xml/processor/service/impl/XmlValidationServiceImpl.java:75-109 | a null type or a missing root fails with `XML content validation failed: <exception>`; an unknown type (matched upper-cased) fails with `Unknown interface type: <type>`; otherwise it fails exactly when the checks report something, with the messages joined by ", ", and passes with no message |
| XmlValidation.CheckRequiredElement | backend/src/main/java/com/xml/processor/service/impl/XmlValidationServiceImpl.java:179-189 | appends `Required element '<name>' is missing` when there is no such element, `Element '<name>' cannot be empty` when the first one is blank, and nothing otherwise |
| XmlValidation.CheckRequiredElements | backend/src/main/java/com/xml/processor/service/impl/XmlValidationServiceImpl.java:118-121 | appends the messages of the checks of the names, in order |
| XmlValidation.CheckContent | backend/src/main/java/com/xml/processor/service/impl/XmlValidationServiceImpl.java:116-177 | collects exactly the messages `ContentErrors` defines, whose meaning `ContentValidIff` states |
| XmlValidation.CheckItems | backend/src/main/java/com/xml/processor/service/impl/XmlValidationServiceImpl.java:128-133 | appends each item's messages, item after item in document order |
| XmlStrategy.UsDateParts | backend/src/main/java/com/xml/processor/service/strategy/XmlProcessingStrategy.java:227-232 | splitting an `MM/DD/YYYY` or `MM-DD-YYYY` date at its separator yields exactly month, day and year |
| XmlStrategy.ReformatDate | backend/src/main/java/com/xml/processor/service/strategy/XmlProcessingStrategy.java:222-237 | an ISO date is kept; a slash or dash US date becomes `YYYY-MM-DD` built from its year, month and day; any other text is returned unchanged |
| XmlStrategy.ReformatDateIdempotent | backend/src/main/java/com/xml/processor/service/strategy/XmlProcessingStrategy.java:222-237 | reformatting an already reformatted date changes nothing |
| XmlStrategy.DateFormatsDisjoint | backend/src/main/java/com/xml/processor/service/strategy/XmlProcessingStrategy.java:225-232 | no text is both a US date and an ISO date, so the ISO branch never shadows a US date |
| XmlStrategy.SlashDateSample | backend/src/main/java/com/xml/processor/service/strategy/XmlProcessingStrategy.java:227-229 | example: `03/15/2024` becomes `2024-03-15` |
| XmlStrategy.DashDateSample | backend/src/main/java/com/xml/processor/service/strategy/XmlProcessingStrategy.java:230-232 | example: `03-15-2024` becomes `2024-03-15` |
| XmlStrategy.UnknownDateSample | backend/src/main/java/com/xml/processor/service/strategy/XmlProcessingStrategy.java:234 | example: an unrecognised date such as `15.03.2024` is kept as it is |
| XmlStrategy.UpperCaseSelectorSample | backend/src/main/java/com/xml/processor/service/strategy/XmlProcessingStrategy.java:215-229 | example: the selector `DATE` reformats a date like `date` |
| XmlStrategy.CleanNumber | backend/src/main/java/com/xml/processor/service/strategy/XmlProcessingStrategy.java:241 | the cleaned text is no longer than the input, holds only ASCII digits, `.` and `-`, and equals the input when it held nothing else |
| XmlStrategy.CleanNumberKeepsCounts | backend/src/main/java/com/xml/processor/service/strategy/XmlProcessingStrategy.java:241 | every digit, `.` and `-` of the input remains, as often as it occurs there |
| XmlStrategy.CleanNumberConcat | backend/src/main/java/com/xml/processor/service/strategy/XmlProcessingStrategy.java:241 | the cleaning works character by character, so the kept characters stay in their order |
| XmlStrategy.ApplyTransformation | backend/src/main/java/com/xml/processor/service/strategy/XmlProcessingStrategy.java:213-251 | the lower-cased selector picks upper case, lower case, Java trim, date reformatting or two-decimal formatting of the cleaned number; a number that does not parse and any unknown selector leave the value unchanged |
| XmlStrategy.SelectorIgnoresCase | backend/src/main/java/com/xml/processor/service/strategy/XmlProcessingStrategy.java:214 | two selectors equal up to case give the same result |
| XmlStrategy.TransformationIdempotent | backend/src/main/java/com/xml/processor/service/strategy/XmlProcessingStrategy.java:215-237 | `uppercase`, `lowercase`, `trim` and `date` applied twice give what they give once |
| XmlStrategy.Advance | backend/src/main/java/com/xml/processor/service/strategy/XmlProcessingStrategy.java:200-207 | one path part: the first descendant with that tag (any tag for `*`) becomes current with the tree unchanged; without one, a new element of that name is appended to the current element and becomes current; only a missing part that is not an XML name throws `INVALID_CHARACTER_ERR`; the new current always lies strictly below the old one |
| XmlStrategy.WalkStep | backend/src/main/java/com/xml/processor/service/strategy/XmlProcessingStrategy.java:199-208 | one iteration of the loop is one `Advance` followed by the walk over the remaining parts, and an exception ends the walk |
| XmlStrategy.WalkEndsOnLastPart | backend/src/main/java/com/xml/processor/service/strategy/XmlProcessingStrategy.java:195-211 | a walk that succeeds ends at a valid element below its start, at least one level per part, whose tag matches the last part |
| XmlStrategy.WalkOnlyAdds | backend/src/main/java/com/xml/processor/service/strategy/XmlProcessingStrategy.java:199-208 | every element of the tree before the walk keeps its path and tag afterwards, and the tree grows by at most one element per part |
| XmlStrategy.WalkFailsOnlyOnBadName | backend/src/main/java/com/xml/processor/service/strategy/XmlProcessingStrategy.java:204 | a walk throws only `INVALID_CHARACTER_ERR`, and only when some part is not an XML name |
| XmlStrategy.EmptyFirstPartFails | backend/src/main/java/com/xml/processor/service/strategy/XmlProcessingStrategy.java:195-205 | a path whose split starts with an empty part (a leading `/` before a name) throws and leaves a well-formed tree unchanged |
| XmlStrategy.StarOnLeafFails | backend/src/main/java/com/xml/processor/service/strategy/XmlProcessingStrategy.java:199-205 | the part `*` on a document element without children throws and leaves the tree unchanged |
| XmlStrategy.XmlDocument.constructor | backend/src/main/java/com/xml/processor/service/strategy/XmlProcessingStrategy.java:197 | the document holds the given element tree |
| XmlStrategy.XmlDocument.FindOrCreateElement | backend/src/main/java/com/xml/processor/service/strategy/XmlProcessingStrategy.java:195-211 | the loop over the `/`-split path leaves the document as the walk over those parts does and returns the walk's element or exception, elements created before an exception included |
| XmlStrategy.ProcessOutcome | backend/src/main/java/com/xml/processor/service/strategy/XmlProcessingStrategy.java:108-146 | the record is named `document.xml`, carries the interface and no client; it is `SUCCESS` exactly when the structure check passes, the interface is present and the content check passes; otherwise it is `ERROR` with the structure message, the null-interface exception message or the content message, in that order |
| XmlStrategy.SuccessMeansValid | backend/src/main/java/com/xml/processor/service/strategy/XmlProcessingStrategy.java:111-136 | a `SUCCESS` record means the root has a non-empty namespace and a `version` attribute, the interface type is known and every element it requires is present with text |
| XmlStrategy.ProcessDocument | backend/src/main/java/com/xml/processor/service/strategy/XmlProcessingStrategy.java:108-146 | the method returns `ProcessOutcome` and leaves the validator's last message as the structure message or, once the structure passes, the content message |
| AsnStrategy.StatusName | backend/src/main/java/com/xml/processor/service/strategy/AsnDocumentProcessingStrategy.java:93-98 | exactly the codes `01` to `04` have a readable name |
| AsnStrategy.ApplyTransformation | backend/src/main/java/com/xml/processor/service/strategy/AsnDocumentProcessingStrategy.java:67-115 | a null or blank value is returned as it is; `asn_date`, `asn_time` and `asn_quantity` give the library's conversion, or the value when there is none; `asn_number` re-prints a value that parses as a `long` and keeps one that does not; `asn_status` gives the name of a known trimmed code and keeps any other value; any other selector behaves as the base class's transformation |
| AsnStrategy.NumberOfValue | backend/src/main/java/com/xml/processor/service/strategy/AsnDocumentProcessingStrategy.java:82-110 | `asn_number` in any letter case: the re-printed `long`, or the value when it does not parse |
| AsnStrategy.LeadingZerosStripped | backend/src/main/java/com/xml/processor/service/strategy/AsnDocumentProcessingStrategy.java:82-84 | `asn_number` turns any zero-padded number in `long` range into its plain decimal form |
| AsnStrategy.CanonicalNumberKept | backend/src/main/java/com/xml/processor/service/strategy/AsnDocumentProcessingStrategy.java:82-84 | `asn_number` keeps a number that is already printed in canonical form, negative ones included |
| AsnStrategy.StatusResult | backend/src/main/java/com/xml/processor/service/strategy/AsnDocumentProcessingStrategy.java:91-99 | `asn_status` yields one of NEW, PROCESSING, COMPLETED, ERROR or the value itself |
| AsnStrategy.StatusOfValue | backend/src/main/java/com/xml/processor/service/strategy/AsnDocumentProcessingStrategy.java:89-99 | `asn_status`, whatever the selector's case, turns a non-blank value into the name of its trimmed code, or leaves it as it is |
| AsnStrategy.StatusOfPlain | backend/src/main/java/com/xml/processor/service/strategy/AsnDocumentProcessingStrategy.java:91-98 | a value without blanks is looked up as it is: the name of its code, or the value itself |
| AsnStrategy.StatusCodes | backend/src/main/java/com/xml/processor/service/strategy/AsnDocumentProcessingStrategy.java:91-99 | example: the status table: the codes `01` to `04` name NEW, PROCESSING, COMPLETED and ERROR, and a name is not itself a code (so `StatusOfPlain` maps a name to itself) |
| AsnStrategy.PaddedStatusCode | backend/src/main/java/com/xml/processor/service/strategy/AsnDocumentProcessingStrategy.java:93 | whitespace padding before a code is trimmed before the lookup |
| AsnStrategy.ProcessUpload | backend/src/main/java/com/xml/processor/service/strategy/AsnDocumentProcessingStrategy.java:44-64 | with an interface the upload is recorded as `SUCCESS` under the file's name, the interface and its client, without an error message; a null interface makes the call fail |
| PerformanceMonitor.JavaHalf | backend/src/main/java/com/xml/processor/service/ClientPerformanceMonitor.java:40 | Java's `long` halving: within one of half the input, never away from zero |
| PerformanceMonitor.MergedBetween | backend/src/main/java/com/xml/processor/service/ClientPerformanceMonitor.java:39-40 | a merged figure lies between the previous figure and the new duration |
| PerformanceMonitor.SteadyDurationKept | backend/src/main/java/com/xml/processor/service/ClientPerformanceMonitor.java:39-40 | a client whose operations always take the same time keeps that time as its figure |
| PerformanceMonitor.FigureBounded | backend/src/main/java/com/xml/processor/service/ClientPerformanceMonitor.java:39-40 | the figure always lies between the shortest and the longest duration recorded |
| PerformanceMonitor.Recorded | backend/src/main/java/com/xml/processor/service/ClientPerformanceMonitor.java:38-50 | recording adds the client and the operation type, keeps every other client and every other type, and sets the type's figure to the duration the first time and to the halved sum afterwards |
| PerformanceMonitor.RecordAllFigure | backend/src/main/java/com/xml/processor/service/ClientPerformanceMonitor.java:38-50 | recording a sequence of durations from no metrics leaves exactly the running figure of those durations |
| PerformanceMonitor.ClientPerformanceMonitor.constructor | backend/src/main/java/com/xml/processor/service/ClientPerformanceMonitor.java:17-22 | no start times and no metrics |
| PerformanceMonitor.ClientPerformanceMonitor.StartOperation | backend/src/main/java/com/xml/processor/service/ClientPerformanceMonitor.java:24-27 | the client's start time becomes now, replacing an earlier one; metrics are unchanged |
| PerformanceMonitor.ClientPerformanceMonitor.EndOperation | backend/src/main/java/com/xml/processor/service/ClientPerformanceMonitor.java:29-36 | the client's start time is removed; with a start, the elapsed time is recorded under the operation type, without one nothing is recorded |
| PerformanceMonitor.ClientPerformanceMonitor.RecordMetric | backend/src/main/java/com/xml/processor/service/ClientPerformanceMonitor.java:38-50 | the metrics become `Recorded` of the old metrics; start times are unchanged |
| PerformanceMonitor.ClientPerformanceMonitor.GetClientMetrics | backend/src/main/java/com/xml/processor/service/ClientPerformanceMonitor.java:52-54 | a client's figures, or an empty map for a client never measured |
| PerformanceMonitor.ClientPerformanceMonitor.ClearMetrics | backend/src/main/java/com/xml/processor/service/ClientPerformanceMonitor.java:56-60 | the client's figures and start time are removed and nothing else, and its metrics then read as empty |
| PerformanceMonitor.EndConsumesStart | backend/src/main/java/com/xml/processor/service/ClientPerformanceMonitor.java:29-36 | example: after one start, a second end finds no start and records nothing, so the figure is the first operation's 250 ms |
| ClientOnboarding.ValidateClientData | backend/src/main/java/com/xml/processor/service/ClientOnboardingService.java:117-133 | each of the four messages is reported exactly when its check is the first to fail, in source order: blank name, name over 255 UTF-16 units, description over 500, missing status |
| ClientOnboarding.ValidClientIff | backend/src/main/java/com/xml/processor/service/ClientOnboardingService.java:117-133 | a client passes exactly when its name is present, non-blank and at most 255 units long, any description is at most 500 units and it has a status |
| ClientOnboarding.SaveKeepsUnique | backend/src/main/java/com/xml/processor/service/impl/ClientServiceImpl.java:54-63 | saving only a client whose name and code are free keeps names and codes unique across the table |
| ClientOnboarding.ClientById | backend/src/main/java/com/xml/processor/service/impl/ClientServiceImpl.java:38-40 | finds a stored client with that id exactly when one exists |
| ClientOnboarding.Clones | backend/src/main/java/com/xml/processor/service/ClientOnboardingService.java:102-112 | one copy per source rule, in order, each the clone of its source |
| ClientOnboarding.CloneMeaning | backend/src/main/java/com/xml/processor/service/ClientOnboardingService.java:104-110 | a clone keeps the name, description, source field, target field and transformation and belongs to the new client; it has no id, no active flag, no interface and is neither required nor an attribute |
| ClientOnboarding.DefaultRulesShape | backend/src/main/java/com/xml/processor/service/ClientOnboardingService.java:135-154 | there are two templates with distinct names, no client, and both a source and a target field |
| ClientOnboarding.ClientOnboardingService.constructor | backend/src/main/java/com/xml/processor/service/ClientOnboardingService.java:23-27 | the service starts on the given client and rule tables |
| ClientOnboarding.ClientOnboardingService.SaveClient | backend/src/main/java/com/xml/processor/service/impl/ClientServiceImpl.java:44-66 | a taken name or, failing that, a taken code is refused with its message and changes nothing; otherwise the client is appended under a fresh id; rules are untouched |
| ClientOnboarding.ClientOnboardingService.OnboardClient | backend/src/main/java/com/xml/processor/service/ClientOnboardingService.java:30-46 | a taken name is refused before saving and a taken code by the save, each with nothing stored; the call succeeds exactly when name and code are both free, and then the client is stored under the next id; rules are untouched |
| ClientOnboarding.ClientOnboardingService.OnboardNewClient | backend/src/main/java/com/xml/processor/service/ClientOnboardingService.java:74-90 | invalid data is refused with the first failed check's message; the call succeeds exactly when the data is valid and name and code are free; on success each given rule is assigned to the new client and appended in order, and on failure no rule changes |
| ClientOnboarding.ClientOnboardingService.AssignRules | backend/src/main/java/com/xml/processor/service/ClientOnboardingService.java:83-86 | each rule object now belongs to the client and the table grows by exactly those rules, in order |
| ClientOnboarding.ClientOnboardingService.CloneClientConfiguration | backend/src/main/java/com/xml/processor/service/ClientOnboardingService.java:93-115 | a missing source client is refused with nothing changed; otherwise the outcome is the save's, and on success the table gains one clone of each of the source client's rules, in table order, owned by the new client |
| ClientOnboarding.GetDefaultMappingRules | backend/src/main/java/com/xml/processor/service/ClientOnboardingService.java:135-154 | two distinct new rule objects holding the two templates |

## Left out

- I/O and the network: every HTTP answer, every JWT decoding result and every parsed XML document is a parameter. Logging is omitted throughout.
- The clock: `Date.now()`, `System.currentTimeMillis()`, `Instant.now()` and `LocalDateTime.now()` are a `now` parameter. `processedAt` is not recorded.
- Concurrency: `ConcurrentHashMap` atomicity, overlapping JavaScript promises beyond the interleavings the Begin/Complete steps expose, and scheduled cleanup jobs are modelled as sequential calls.
- Floating point and library formatting: the `number` transformation's `String.format("%.2f")`, the ASN `asn_date`, `asn_time` and `asn_quantity` conversions, and the base class's `number`, `integer` and `currency` cases are function parameters (`formatNumber`, `library`).
- XPath evaluation in the base class's rule loop is a parameter that yields the matches for a path.
- `validateXmlAgainstXsd`: XSD loading and schema validation are library I/O.
- `transformXmlFile` and `processDocument(MultipartFile)` of the XML strategy: they parse, serialise and write files.
- Case conversion (`toUpperCase`, `toLowerCase`, `equalsIgnoreCase`) is ASCII only; other letters are left as they are.
- Element names: `createElement` accepts the XML 1.0 (fifth edition) `Name` production, not the name tables of the parser library in use.
- `Long.parseLong` accepts ASCII digits only, not other Unicode decimal digits.
- SessionTokens.IsTokenValid: `exp` is a whole number of seconds; a fractional `exp`, numeric or a string JavaScript reads as a fraction, is not represented, and other values that `*` converts to a number (`null`, booleans, one-element arrays) are counted as non-numeric.
- Jwt.ValidAt: `exp` is a whole number of seconds; a fractional numeric `exp`, which the `typeof` check accepts and compares, is not represented.
- TokenService.IsTokenValid: the same whole-seconds limit through `Jwt.ValidAt`.
- TokenManager.IsTokenValid: the same whole-seconds limit through `Jwt.ValidAt`.
- PerformanceMonitor.ClientPerformanceMonitor.GetClientMetrics: the Java method returns the live inner map, which a caller can keep and change; the model returns a copy of its value, so that aliasing is not captured.
- PerformanceMonitor.Recorded: the `long` sum of the old figure and the new duration is not wrapped to 64 bits.
- MappingRuleService.Slice: the `(int)` cast of a page offset beyond 2^31 is not modelled.
- ClientOnboarding.ClientOnboardingService.SaveClient: every client is saved as a new one and a carried id is ignored. Bean validation of the entity is not modelled, and neither is the update path of `saveClient` for an existing id.
- ClientOnboarding.ClientOnboardingService.CloneClientConfiguration: a null source id is not modelled (the id is an `int`). A null new client is not modelled in onboarding either.
- MappingRuleService.MappingRuleServiceImpl.CreateMappingRule: the repository's `save` is modelled as an insert that keeps the rule's id as given; the merge of a rule whose id is already stored and the id the database generates for a new rule are not modelled.
- ClientOnboarding.ClientOnboardingService.AssignRules: the same holds for the rules it saves: each is appended as given, with no merge by id and no generated id.
- ApiService.Exchange: an answer is a status code only, so a 2xx answer to `/auth/refresh-csrf` is taken to carry a CSRF token and one to `/auth/refresh` a token pair, and a refresh token is taken to be stored when the first 401 arrives; `OnResponseError` states what happens without them.
- AuthContext.Intercepted: an answer is a status code only, so a 2xx answer to `/api/auth/refresh` is taken to carry a token; `OnResponseError` states what happens with the token it carries.
- AuthService.ForgetUser: the deletion of the HTTP client's default `Authorization` header is not modelled; the model keeps no default headers.
- `BaseEntity` is not part of this model; entity ids and timestamps are plain fields.
- RateLimiter.ColonUsernameKey: the lemma exhibits only the username `:`, whose backoff key has no username part; other usernames containing `:` are not characterised.
- `utils/tokenManager.ts` `refreshToken` (a network call with no state logic beyond storing the pair) and `errorHandler.ts` `isApiError` (a type guard) are not modelled.
- The `get`, `post`, `put` and `delete` wrappers of `apiService.ts` only forward to axios through the interceptors, which are modelled.
- `MappingRule` `isAttribute` and `isRequired` are predicates; their null-means-false behaviour is stated in the setters' contracts and in `ClientOnboarding.CloneMeaning`.

## Findings

| source | as written | input that shows it | evidently intended | confidence | as-written member | corrected member |
|---|---|---|---|---|---|---|
| frontend/src/context/ClientInterfaceContext.tsx:140-155 | after the await, the staleness test reads `requestRef.current`, the newest controller, which is not aborted, so a superseded request is never detected | refresh A starts; an interface refresh switches loading off; refresh B starts and aborts A's controller; B answers with list [b], then A answers with [a]: the list shown is [a] | an answer is applied only when its own request is still the current one | not executed | ClientInterfaceContext.StaleListWinsAsWritten | ClientInterfaceContext.NewerListWins |
| backend/src/main/java/com/xml/processor/security/service/EnhancedRateLimiter.java:85-92 | username counters are stored in `ipAttempts`, which the cleanup expires after the 5-minute IP window | ten attempts for user `u` within a minute, then one more from a new address 300001 ms later: allowed | the 10-per-hour username window of `usernameAttempts` | not executed | RateLimiterScenarios.UsernameWindowAsWritten | RateLimiterScenarios.UsernameWindow |
| frontend/src/services/authService.ts:56-67 | `logout` and a failed `refreshToken` call `tokenManager.clearTokens`, which the imported helper does not define | any logout with a stored access token: a `TypeError` is thrown and the token stays | both tokens are removed, whether the server call succeeds or fails | not executed | AuthService.LogoutLeavesTokens | AuthService.Logout |
| frontend/src/context/AuthContext.tsx:64 | the refresh is posted through the global client, which carries this same interceptor, so a 401 answer to it (the server's answer to an invalid or expired refresh token) starts another refresh | a server that answers 401 to `/api/auth/refresh`: the request never settles and `logout` never runs | a refused refresh logs out and rejects the original request | not executed | AuthContext.RefreshLoopAsWritten | AuthContext.CorrectedInterceptorSettles |
| frontend/src/services/apiService.ts:101-120 | the refresh request is sent through the same instance, so its own 401 runs the interceptor again and starts a nested refresh | a server that answers 401 to `/auth/refresh`: the refresh never settles | a refresh that fails clears the tokens and rejects, so every request settles | not executed | ApiService.RefreshAsWrittenNeverSettles | ApiService.CorrectedSettles |
| frontend/src/services/apiService.ts:79-83 | the CSRF refresh request is sent through the same instance without `_csrfRetry`, so its own 403 runs the interceptor again and starts another CSRF refresh | a server that answers 403 to `/auth/refresh-csrf`: the request never settles | a CSRF refresh that fails rejects, so every request settles | not executed | ApiService.CsrfRefreshAsWrittenNeverSettles | ApiService.CorrectedSettles |
| backend/src/main/java/com/xml/processor/service/impl/MappingRuleServiceImpl.java:169-175 | `subList(offset, min(offset + size, n))` throws when the offset lies past the end of the list | one rule, page size 2, page 1 (offset 2): `IllegalArgumentException` | an empty page with total 1 | not executed | MappingRuleService.PastEndThrows | MappingRuleService.SlicesJoin |
