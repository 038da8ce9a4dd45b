/**
 * `tokenService`: the access and refresh tokens kept in local storage under
 * `auth_token` and `refresh_token`, their expiry check, and the CSRF token
 * kept in the `XSRF-TOKEN` cookie.
 */
module TokenService {
  import opened Wrappers
  import opened Text
  import opened Browser
  import opened Jwt

  const ACCESS_TOKEN_KEY: string := "auth_token"
  const REFRESH_TOKEN_KEY: string := "refresh_token"
  const CSRF_TOKEN_COOKIE: string := "XSRF-TOKEN"

  method SetTokens(storage: LocalStorage, accessToken: string, refreshToken: string)
    modifies storage
    ensures storage.items == old(storage.items)[ACCESS_TOKEN_KEY := accessToken][REFRESH_TOKEN_KEY := refreshToken]
    ensures storage.GetItem(ACCESS_TOKEN_KEY) == Some(accessToken)
    ensures storage.GetItem(REFRESH_TOKEN_KEY) == Some(refreshToken)
  {
    storage.SetItem(ACCESS_TOKEN_KEY, accessToken);
    storage.SetItem(REFRESH_TOKEN_KEY, refreshToken);
  }

  method ClearTokens(storage: LocalStorage)
    modifies storage
    ensures storage.items == old(storage.items) - {ACCESS_TOKEN_KEY, REFRESH_TOKEN_KEY}
    ensures storage.GetItem(ACCESS_TOKEN_KEY) == None && storage.GetItem(REFRESH_TOKEN_KEY) == None
  {
    storage.RemoveItem(ACCESS_TOKEN_KEY);
    storage.RemoveItem(REFRESH_TOKEN_KEY);
  }

  /**
   * `isTokenValid(token?)`: a token passed in (when truthy) is checked instead of
   * the stored one; the check is `Jwt.ValidAt` with the 5-minute buffer.
   */
  function IsTokenValid(token: Option<string>, storage: LocalStorage, decode: Decoder, now: int): (r: bool)
    reads storage
    ensures Truthy(token) ==> r == ValidAt(token, decode, now)
    ensures !Truthy(token) ==> r == ValidAt(storage.GetItem(ACCESS_TOKEN_KEY), decode, now)
    ensures r ==> Truthy(token) || Truthy(storage.GetItem(ACCESS_TOKEN_KEY))
  {
    ValidAt(if Truthy(token) then token else storage.GetItem(ACCESS_TOKEN_KEY), decode, now)
  }

  // ---------------------------------------------------------------------
  // CSRF cookie
  // ---------------------------------------------------------------------

  /**
   * What `getCsrfToken` finds among the `;`-separated pieces of the cookie text:
   * for the first piece whose trimmed text has `XSRF-TOKEN` before its first `=`,
   * the text between its first and second `=` (`None` when there is no such piece,
   * and for the `undefined` of a piece without `=`).
   */
  function CsrfIn(pieces: seq<string>): Option<string>
    decreases |pieces|
  {
    if pieces == [] then None
    else
      var parts := Split(JsTrim(pieces[0]), '=');
      if parts[0] == CSRF_TOKEN_COOKIE then (if |parts| > 1 then Some(parts[1]) else None)
      else CsrfIn(pieces[1..])
  }

  /** The CSRF token as the cookie jar holds it, up to its first `=`. */
  function CsrfCookieValue(cookies: seq<Cookie>): Option<string> {
    match Lookup(cookies, CSRF_TOKEN_COOKIE)
    case Some(v) => Some(Split(v, '=')[0])
    case None => None
  }

  /**
   * `getCsrfToken`: scans the pieces of `document.cookie` in order. On a jar of
   * well-formed cookies it returns the `XSRF-TOKEN` cookie's value (up to a
   * first `=` inside it), and `None` when there is no such cookie.
   */
  method GetCsrfToken(jar: CookieJar) returns (r: Option<string>)
    ensures r == CsrfIn(Split(jar.CookieString(), ';'))
    ensures jar.Valid() ==> r == CsrfCookieValue(jar.cookies)
  {
    r := ScanPieces(Split(jar.CookieString(), ';'));
    if jar.Valid() {
      CsrfOfCookies(jar.cookies);
    }
  }

  /** The loop of `getCsrfToken` over the pieces of the cookie text. */
  method ScanPieces(pieces: seq<string>) returns (r: Option<string>)
    ensures r == CsrfIn(pieces)
  {
    var i := 0;
    while i < |pieces|
      invariant 0 <= i <= |pieces|
      invariant CsrfIn(pieces[i..]) == CsrfIn(pieces)
    {
      assert pieces[i..][0] == pieces[i] && pieces[i..][1..] == pieces[i + 1..];
      var parts := Split(JsTrim(pieces[i]), '=');
      if parts[0] == CSRF_TOKEN_COOKIE {
        return if |parts| > 1 then Some(parts[1]) else None;
      }
      i := i + 1;
    }
    return None;
  }

  lemma EntryOctets(c: Cookie)
    requires WellFormed(c)
    ensures forall i :: 0 <= i < |Entry(c)| ==> IsCookieOctet(Entry(c)[i])
  {
    var e := Entry(c);
    assert e == c.name + (['='] + c.value);
    forall i | 0 <= i < |e| ensures IsCookieOctet(e[i]) {
      if i < |c.name| {
        assert e[i] == c.name[i];
      } else if i > |c.name| {
        assert e[i] == c.value[i - |c.name| - 1];
      }
    }
  }

  /** Trimming cookie text, with or without the space the browser puts before it, gives the text itself. */
  lemma TrimCookieText(e: string)
    requires forall i :: 0 <= i < |e| ==> IsCookieOctet(e[i])
    ensures JsTrim(" " + e) == e && JsTrim(e) == e
  {
    OctetsNotWhitespace(e);
    TrimPadded(" ", e, IsJsWhitespace);
    TrimPadded("", e, IsJsWhitespace);
    assert "" + e == e;
  }

  lemma SplitEntry(c: Cookie)
    requires WellFormed(c)
    ensures Split(Entry(c), '=') == [c.name] + Split(c.value, '=')
  {
    assert Entry(c) == c.name + (['='] + c.value);
    SplitConcat(c.name, c.value, '=');
  }

  /** A cookie's entry, with or without the leading space, trims to itself. */
  lemma EntryTrim(c: Cookie)
    requires WellFormed(c)
    ensures JsTrim(" " + Entry(c)) == Entry(c) && JsTrim(Entry(c)) == Entry(c)
  {
    EntryOctets(c);
    TrimCookieText(Entry(c));
  }

  lemma EntryNoSemicolon(c: Cookie)
    requires WellFormed(c)
    ensures ';' !in Entry(c) && ';' !in " " + Entry(c)
  {
    EntryOctets(c);
    NoSemicolon(Entry(c));
  }

  /** Cookie text, with or without a leading space, holds no `;`. */
  lemma NoSemicolon(e: string)
    requires forall i :: 0 <= i < |e| ==> IsCookieOctet(e[i])
    ensures ';' !in e && ';' !in " " + e
  {
    var s := " " + e;
    forall i | 0 <= i < |s| ensures s[i] != ';' {
      if i > 0 {
        assert s[i] == e[i - 1];
      }
    }
  }

  /** One step of the scan: a piece that trims to a cookie's entry either matches by name or passes the scan on. */
  lemma CsrfInStep(pieces: seq<string>, c: Cookie)
    requires pieces != [] && JsTrim(pieces[0]) == Entry(c) && WellFormed(c)
    ensures CsrfIn(pieces) == if c.name == CSRF_TOKEN_COOKIE then Some(Split(c.value, '=')[0]) else CsrfIn(pieces[1..])
  {
    EntryTrim(c);
    SplitEntry(c);
  }

  /** The scan over the cookie text's pieces from the `k`-th one on. */
  lemma SegmentsStep(cookies: seq<Cookie>, k: nat)
    requires k < |cookies|
    requires forall i :: 0 <= i < |cookies| ==> WellFormed(cookies[i])
    ensures CsrfIn(Segments(cookies)[k..])
         == if cookies[k].name == CSRF_TOKEN_COOKIE then Some(Split(cookies[k].value, '=')[0])
            else CsrfIn(Segments(cookies)[k + 1..])
  {
    var segs := Segments(cookies);
    var c := cookies[k];
    EntryTrim(c);
    SplitEntry(c);
    if k == 0 {
      assert segs[k] == Entry(c) by {
        assert segs[k] == "" + Entry(c);
      }
    }
    assert JsTrim(segs[k]) == Entry(c);
    CsrfInStep(segs[k..], c);
    assert segs[k..][1..] == segs[k + 1..];
  }

  /** The cookie lookup from the `k`-th cookie on. */
  lemma CookieValueStep(cookies: seq<Cookie>, k: nat)
    requires k < |cookies|
    ensures CsrfCookieValue(cookies[k..])
         == if cookies[k].name == CSRF_TOKEN_COOKIE then Some(Split(cookies[k].value, '=')[0])
            else CsrfCookieValue(cookies[k + 1..])
  {
    assert cookies[k..][0] == cookies[k];
    assert cookies[k..][1..] == cookies[k + 1..];
  }

  lemma {:induction false} CsrfInSegments(cookies: seq<Cookie>, k: nat)
    requires k <= |cookies|
    requires forall i :: 0 <= i < |cookies| ==> WellFormed(cookies[i])
    ensures CsrfIn(Segments(cookies)[k..]) == CsrfCookieValue(cookies[k..])
    decreases |cookies| - k
  {
    if k < |cookies| {
      SegmentsStep(cookies, k);
      CookieValueStep(cookies, k);
      CsrfInSegments(cookies, k + 1);
    } else {
      assert Segments(cookies)[k..] == [] && cookies[k..] == [];
    }
  }

  /** Reading the cookie text back: `CsrfIn` of a well-formed jar is the `XSRF-TOKEN` cookie's value. */
  lemma CsrfOfCookies(cookies: seq<Cookie>)
    requires forall i :: 0 <= i < |cookies| ==> WellFormed(cookies[i])
    ensures CsrfIn(Split(Join(Segments(cookies), ";"), ';')) == CsrfCookieValue(cookies)
  {
    var segs := Segments(cookies);
    if cookies == [] {
      assert Join(segs, ";") == "";
      assert JsTrim("") == "";
    } else {
      forall i | 0 <= i < |segs| ensures ';' !in segs[i] {
        EntryNoSemicolon(cookies[i]);
        assert segs[i] == " " + Entry(cookies[i]) || segs[i] == Entry(cookies[i]);
      }
      JoinSplit(segs, ';');
      CsrfInSegments(cookies, 0);
      assert segs[0..] == segs && cookies[0..] == cookies;
    }
  }

  /**
   * `setCsrfToken` assigns `XSRF-TOKEN=<token>; path=/` to `document.cookie`; a
   * cookie-safe token becomes the cookie's value, and reading the cookie back
   * gives the token when it has no `=`.
   */
  method SetCsrfToken(jar: CookieJar, token: string)
    requires jar.Valid()
    modifies jar
    ensures jar.Valid()
    ensures WellFormed(Cookie(CSRF_TOKEN_COOKIE, token))
            ==> jar.cookies == Upsert(old(jar.cookies), Cookie(CSRF_TOKEN_COOKIE, token))
    ensures WellFormed(Cookie(CSRF_TOKEN_COOKIE, token)) && '=' !in token
            ==> CsrfIn(Split(jar.CookieString(), ';')) == Some(token)
  {
    var cookie := Cookie(CSRF_TOKEN_COOKIE, token);
    var text := Entry(cookie) + ";" + " path=/";
    if WellFormed(cookie) {
      AssignmentOfCookie(cookie, " path=/");
      if '=' !in token {
        CsrfRoundTrip(jar.cookies, token);
      }
    }
    jar.Assign(text);
  }

  /** The pair of `name=value; attributes` is the cookie itself. */
  lemma AssignmentOfCookie(c: Cookie, attributes: string)
    requires WellFormed(c)
    ensures ParseAssignment(Entry(c) + ";" + attributes) == Some(c)
  {
    AssignmentParts(c, attributes);
    ParseOfPair(c, Entry(c) + ";" + attributes);
  }

  lemma AssignmentParts(c: Cookie, attributes: string)
    requires WellFormed(c)
    ensures Split(Entry(c) + ";" + attributes, ';')[0] == Entry(c)
    ensures Split(Entry(c), '=')[0] == c.name
    ensures JsTrim(c.name) == c.name && JsTrim(c.value) == c.value
    ensures Entry(c)[|c.name| + 1..] == c.value
  {
    PairOfAssignment(c, attributes);
    SplitEntry(c);
    TrimCookieText(c.name);
    TrimCookieText(c.value);
  }

  lemma PairOfAssignment(c: Cookie, attributes: string)
    requires WellFormed(c)
    ensures Split(Entry(c) + ";" + attributes, ';')[0] == Entry(c)
  {
    var e := Entry(c);
    EntryNoSemicolon(c);
    assert e + ";" + attributes == e + ([';'] + attributes);
    SplitConcat(e, attributes, ';');
  }

  lemma ParseOfPair(c: Cookie, s: string)
    requires WellFormed(c)
    requires Split(s, ';')[0] == Entry(c)
    requires Split(Entry(c), '=')[0] == c.name
    requires Entry(c)[|c.name| + 1..] == c.value
    requires JsTrim(c.name) == c.name && JsTrim(c.value) == c.value
    ensures ParseAssignment(s) == Some(c)
  {
  }

  /** The jar's CSRF value after storing a token without `=` is that token. */
  lemma CsrfValueAfterSet(cookies: seq<Cookie>, token: string)
    requires '=' !in token
    ensures CsrfCookieValue(Upsert(cookies, Cookie(CSRF_TOKEN_COOKIE, token))) == Some(token)
  {
    UpsertLookup(cookies, Cookie(CSRF_TOKEN_COOKIE, token), CSRF_TOKEN_COOKIE);
    SplitNoSeparator(token, '=');
  }

  /** `getCsrfToken` after `setCsrfToken(t)` gives back `t`, for a cookie-safe token without `=`. */
  lemma CsrfRoundTrip(cookies: seq<Cookie>, token: string)
    requires forall i :: 0 <= i < |cookies| ==> WellFormed(cookies[i])
    requires WellFormed(Cookie(CSRF_TOKEN_COOKIE, token)) && '=' !in token
    ensures CsrfIn(Split(Join(Segments(Upsert(cookies, Cookie(CSRF_TOKEN_COOKIE, token))), ";"), ';')) == Some(token)
  {
    UpsertWellFormed(cookies, Cookie(CSRF_TOKEN_COOKIE, token));
    CsrfOfCookies(Upsert(cookies, Cookie(CSRF_TOKEN_COOKIE, token)));
    CsrfValueAfterSet(cookies, token);
  }

  // ---------------------------------------------------------------------
  // Payload and user information
  // ---------------------------------------------------------------------

  datatype UserInfo = UserInfo(username: Option<string>, roles: seq<string>)

  /** `getTokenPayload`: the decoded stored token; `None` without a token or when decoding throws. Expiry is not checked. */
  function GetTokenPayload(storage: LocalStorage, decode: Decoder): (r: Option<Payload>)
    reads storage
    ensures r.Some? <==> Truthy(storage.GetItem(ACCESS_TOKEN_KEY)) && decode(storage.GetItem(ACCESS_TOKEN_KEY).value).Some?
    ensures r.Some? ==> r == decode(storage.items[ACCESS_TOKEN_KEY])
  {
    var token := storage.GetItem(ACCESS_TOKEN_KEY);
    if !Truthy(token) then None else decode(token.value)
  }

  /** `getUserInfo`: the subject and the roles of the stored token, roles defaulting to the empty list. */
  function GetUserInfo(storage: LocalStorage, decode: Decoder): (r: Option<UserInfo>)
    reads storage
    ensures r.Some? <==> GetTokenPayload(storage, decode).Some?
    ensures r.Some? ==> r.value.username == GetTokenPayload(storage, decode).value.sub
    ensures r.Some? && GetTokenPayload(storage, decode).value.roles.None? ==> r.value.roles == []
    ensures r.Some? && GetTokenPayload(storage, decode).value.roles.Some?
            ==> r.value.roles == GetTokenPayload(storage, decode).value.roles.value
  {
    match GetTokenPayload(storage, decode)
    case None => None
    case Some(p) => Some(UserInfo(p.sub, p.roles.GetOr([])))
  }
}
