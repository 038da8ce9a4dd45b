/**
 * The two pieces of browser state the front end reads and writes: the
 * `localStorage` key/value store and the `document.cookie` jar.
 */
module Browser {
  import opened Wrappers
  import opened Text

  /** `window.localStorage`: a map from keys to string values. */
  class LocalStorage {
    var items: map<string, string>

    constructor()
      ensures items == map[]
    {
      items := map[];
    }

    /** `getItem`: the stored value, or `null` (`None`) for an absent key. */
    function GetItem(key: string): (r: Option<string>)
      reads this
      ensures r.Some? <==> key in items
      ensures r.Some? ==> r.value == items[key]
    {
      if key in items then Some(items[key]) else None
    }

    method SetItem(key: string, value: string)
      modifies this
      ensures items == old(items)[key := value]
    {
      items := items[key := value];
    }

    method RemoveItem(key: string)
      modifies this
      ensures items == old(items) - {key}
    {
      items := items - {key};
    }
  }

  // ---------------------------------------------------------------------
  // Cookies
  // ---------------------------------------------------------------------

  datatype Cookie = Cookie(name: string, value: string)

  /** A character allowed in a cookie value (cookie-octet, section 4.1.1 of RFC 6265): printable ASCII except `"`, `,`, `;` and `\`. */
  predicate IsCookieOctet(ch: char) {
    '!' <= ch <= '~' && ch != '"' && ch != ',' && ch != ';' && ch != '\\'
  }

  /** A cookie the jar can hold: a non-empty name of cookie-octets other than `=`, and a value of cookie-octets. */
  predicate WellFormed(c: Cookie) {
    c.name != []
    && (forall i :: 0 <= i < |c.name| ==> IsCookieOctet(c.name[i]) && c.name[i] != '=')
    && (forall i :: 0 <= i < |c.value| ==> IsCookieOctet(c.value[i]))
  }

  /** Cookie text contains neither whitespace nor `;`. */
  lemma OctetsNotWhitespace(s: string)
    requires forall i :: 0 <= i < |s| ==> IsCookieOctet(s[i])
    ensures forall i :: 0 <= i < |s| ==> !IsJsWhitespace(s[i]) && s[i] != ';'
  {
  }

  /** The value of the cookie called `name`, if there is one. */
  function Lookup(cookies: seq<Cookie>, name: string): (r: Option<string>)
    ensures r.Some? <==> exists i :: 0 <= i < |cookies| && cookies[i].name == name
    decreases |cookies|
  {
    if cookies == [] then None
    else if cookies[0].name == name then Some(cookies[0].value)
    else Lookup(cookies[1..], name)
  }

  /** Stores `c`, replacing the cookie of the same name in place or appending a new one. */
  function Upsert(cookies: seq<Cookie>, c: Cookie): (r: seq<Cookie>)
    decreases |cookies|
  {
    if cookies == [] then [c]
    else if cookies[0].name == c.name then [c] + cookies[1..]
    else [cookies[0]] + Upsert(cookies[1..], c)
  }

  predicate UniqueNames(cookies: seq<Cookie>) {
    forall i, j :: 0 <= i < j < |cookies| ==> cookies[i].name != cookies[j].name
  }

  /** After an upsert the new cookie is found under its name and every other name keeps its value. */
  lemma {:induction false} UpsertLookup(cookies: seq<Cookie>, c: Cookie, name: string)
    ensures Lookup(Upsert(cookies, c), name) == if name == c.name then Some(c.value) else Lookup(cookies, name)
    decreases |cookies|
  {
    if cookies != [] && cookies[0].name != c.name {
      UpsertLookup(cookies[1..], c, name);
      assert Upsert(cookies, c)[1..] == Upsert(cookies[1..], c);
    } else if cookies != [] && cookies[0].name != name {
      assert Upsert(cookies, c)[1..] == cookies[1..];
    }
  }

  /** Every cookie after an upsert is the new one or one that was there before. */
  lemma {:induction false} UpsertMembers(cookies: seq<Cookie>, c: Cookie)
    ensures forall i :: 0 <= i < |Upsert(cookies, c)| ==> Upsert(cookies, c)[i] == c || Upsert(cookies, c)[i] in cookies
    decreases |cookies|
  {
    if cookies != [] && cookies[0].name != c.name {
      UpsertMembers(cookies[1..], c);
      var r := Upsert(cookies, c);
      assert r == [cookies[0]] + Upsert(cookies[1..], c);
      forall i | 0 <= i < |r| ensures r[i] == c || r[i] in cookies {
        if i > 0 {
          assert r[i] == Upsert(cookies[1..], c)[i - 1];
        }
      }
    }
  }

  /** An upsert keeps the cookies well formed. */
  lemma UpsertWellFormed(cookies: seq<Cookie>, c: Cookie)
    requires forall i :: 0 <= i < |cookies| ==> WellFormed(cookies[i])
    requires WellFormed(c)
    ensures forall i :: 0 <= i < |Upsert(cookies, c)| ==> WellFormed(Upsert(cookies, c)[i])
  {
    UpsertMembers(cookies, c);
  }

  /** An upsert keeps the names unique. */
  lemma {:induction false} UpsertUnique(cookies: seq<Cookie>, c: Cookie)
    requires UniqueNames(cookies)
    ensures UniqueNames(Upsert(cookies, c))
    decreases |cookies|
  {
    if cookies != [] && cookies[0].name != c.name {
      UpsertUnique(cookies[1..], c);
      UpsertMembers(cookies[1..], c);
      var r := Upsert(cookies, c);
      var rest := Upsert(cookies[1..], c);
      assert r == [cookies[0]] + rest;
      forall i, j | 0 <= i < j < |r| ensures r[i].name != r[j].name {
        if i == 0 {
          if rest[j - 1] != c {
            assert rest[j - 1] in cookies[1..];
          }
        } else {
          assert r[i] == rest[i - 1] && r[j] == rest[j - 1];
        }
      }
    }
  }

  /** How a cookie appears in the `document.cookie` text. */
  function Entry(c: Cookie): string {
    c.name + "=" + c.value
  }

  /**
   * The pieces of the `document.cookie` text between its semicolons: the
   * browser writes the cookies separated by "; ", so every entry after the
   * first is preceded by one space.
   */
  function Segments(cookies: seq<Cookie>): (r: seq<string>)
    ensures |r| == |cookies|
    ensures forall i :: 0 <= i < |r| ==> r[i] == (if i == 0 then "" else " ") + Entry(cookies[i])
  {
    seq(|cookies|, i requires 0 <= i < |cookies| => (if i == 0 then "" else " ") + Entry(cookies[i]))
  }

  /** The cookie pair of a `document.cookie = s` assignment: the text before the first `;`, split at its first `=`, both halves trimmed. */
  function ParseAssignment(s: string): Option<Cookie> {
    var pair := Split(s, ';')[0];
    var name := Split(pair, '=')[0];
    if |name| == |pair| then None
    else
      var c := Cookie(JsTrim(name), JsTrim(pair[|name| + 1..]));
      if WellFormed(c) then Some(c) else None
  }

  /** `document.cookie`. */
  class CookieJar {
    var cookies: seq<Cookie>

    ghost predicate Valid()
      reads this
    {
      UniqueNames(cookies) && forall i :: 0 <= i < |cookies| ==> WellFormed(cookies[i])
    }

    constructor()
      ensures Valid() && cookies == []
    {
      cookies := [];
    }

    /** Reading `document.cookie`. */
    function CookieString(): string
      reads this
    {
      Join(Segments(cookies), ";")
    }

    /**
     * Assigning `document.cookie = s`: the pair before the first `;` is stored
     * and the attributes after it (`path=/`) are not kept; text without a
     * well-formed pair changes nothing.
     */
    method Assign(s: string)
      requires Valid()
      modifies this
      ensures Valid()
      ensures cookies == match ParseAssignment(s)
                         case Some(c) => Upsert(old(cookies), c)
                         case None => old(cookies)
    {
      var p := ParseAssignment(s);
      if p.Some? {
        UpsertWellFormed(cookies, p.value);
        UpsertUnique(cookies, p.value);
        cookies := Upsert(cookies, p.value);
      }
    }
  }
}
