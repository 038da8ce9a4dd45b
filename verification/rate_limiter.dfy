/**
 * `EnhancedRateLimiter`: login attempts counted per IP (5 per 5 minutes) and
 * per username (10 per hour) in fixed windows, plus a per IP-and-username
 * backoff that starts at one minute and doubles up to 60. Time is the `now`
 * parameter, in milliseconds.
 */
module RateLimiter {
  import opened Wrappers
  import opened Text

  const PRIMARY_MAX_ATTEMPTS: int := 5
  const PRIMARY_WINDOW_MS: int := 300000
  const SECONDARY_MAX_ATTEMPTS: int := 10
  const SECONDARY_WINDOW_MS: int := 3600000
  const MAX_BACKOFF_MINUTES: int := 60

  /** The exception the backoff cleanup raises on a key without a username part. */
  const INDEX_OUT_OF_BOUNDS: string := "ArrayIndexOutOfBoundsException"

  /** A window's attempt count and start time. */
  datatype AttemptInfo = AttemptInfo(count: int, windowStart: int)

  /** `username != null && !username.isEmpty()`. */
  predicate HasName(username: Option<string>) {
    username.Some? && username.value != ""
  }

  function IpKey(ip: Option<string>): string { "ip:" + Str(ip) }
  function UserKey(username: string): string { "user:" + username }
  function BackoffKey(ip: Option<string>, username: string): string { Str(ip) + ":" + username }

  /** `Instant.now().isAfter(windowStart + windowMs)`. */
  predicate Expired(windowStart: int, windowMs: int, now: int) {
    now > windowStart + windowMs
  }

  /** The counter of `key` after one more attempt: a new window with count 1 when there is none or it expired, else one more in the same window. */
  function Counted(m: map<string, AttemptInfo>, key: string, windowMs: int, now: int): (info: AttemptInfo)
    ensures key !in m || Expired(m[key].windowStart, windowMs, now) ==> info == AttemptInfo(1, now)
    ensures key in m && !Expired(m[key].windowStart, windowMs, now) ==>
              info.windowStart == m[key].windowStart && info.count == m[key].count + 1
  {
    if key !in m || Expired(m[key].windowStart, windowMs, now) then AttemptInfo(1, now)
    else AttemptInfo(m[key].count + 1, m[key].windowStart)
  }

  /** The entries of `m` whose window has not expired. */
  function Unexpired(m: map<string, AttemptInfo>, windowMs: int, now: int): (r: map<string, AttemptInfo>)
    ensures forall k | k in r :: k in m && r[k] == m[k] && !Expired(m[k].windowStart, windowMs, now)
    ensures forall k | k in m && !Expired(m[k].windowStart, windowMs, now) :: k in r
  {
    map k | k in m && !Expired(m[k].windowStart, windowMs, now) :: m[k]
  }

  /** A backoff key splits at `:` into at least an IP part and a username part. */
  predicate WellFormedKey(key: string) {
    |JavaSplit(key, ':')| >= 2
  }

  /** A backoff entry is stale when neither its IP nor its username has a live counter. */
  predicate Stale(key: string, ips: map<string, AttemptInfo>, users: map<string, AttemptInfo>)
    requires WellFormedKey(key)
  {
    var parts := JavaSplit(key, ':');
    "ip:" + parts[0] !in ips && "user:" + parts[1] !in users
  }

  /** The backoff map after a cleanup that raised nothing. */
  function Fresh(backoff: map<string, int>, ips: map<string, AttemptInfo>, users: map<string, AttemptInfo>): (r: map<string, int>)
    requires forall k | k in backoff :: WellFormedKey(k)
    ensures forall k | k in r :: k in backoff && r[k] == backoff[k] && !Stale(k, ips, users)
    ensures forall k | k in backoff && !Stale(k, ips, users) :: k in r
  {
    map k | k in backoff && !Stale(k, ips, users) :: backoff[k]
  }

  /** A backoff key built from an IP and a username, neither containing `:`, splits back into the two. */
  lemma BackoffKeyParts(ip: Option<string>, username: string)
    requires ':' !in Str(ip) && ':' !in username && username != ""
    ensures WellFormedKey(BackoffKey(ip, username))
    ensures JavaSplit(BackoffKey(ip, username), ':') == [Str(ip), username]
  {
    assert BackoffKey(ip, username) == Str(ip) + ([':'] + username);
    SplitAroundColon(Str(ip), username);
  }

  lemma SplitAroundColon(a: string, b: string)
    requires ':' !in a && ':' !in b && b != ""
    ensures JavaSplit(a + ([':'] + b), ':') == [a, b]
  {
    JavaSplitAround(a, b, ':');
    SplitNoSeparator(b, ':');
    assert DropTrailingEmpty([a] + [b]) == [a, b];
  }

  /** A username of colons only gives a backoff key without a username part, on which the cleanup raises. */
  lemma ColonUsernameKey(ip: string)
    requires ':' !in ip
    ensures !WellFormedKey(BackoffKey(Some(ip), ":"))
  {
    var key := BackoffKey(Some(ip), ":");
    assert key == ip + ([':'] + ":");
    JavaSplitAround(ip, ":", ':');
    ColonSplit(ip);
    assert |DropTrailingEmpty([ip, "", ""])| <= 1;
  }

  lemma ColonSplit(ip: string)
    ensures [ip] + Split(":", ':') == [ip, "", ""]
  {
    assert Split(":", ':') == ["", ""];
  }

  /** The next backoff after a failure: one minute the first time, then double, at most 60. */
  function NextBackoff(current: Option<int>): int {
    if current.None? then 1 else Min(current.value * 2, MAX_BACKOFF_MINUTES)
  }

  function Min(a: int, b: int): int { if a < b then a else b }

  function Pow2(n: nat): nat { if n == 0 then 1 else 2 * Pow2(n - 1) }

  /** The backoff after `n` consecutive failures from none. */
  function BackoffAfter(n: nat): int
    requires n >= 1
  {
    if n == 1 then NextBackoff(None) else NextBackoff(Some(BackoffAfter(n - 1)))
  }

  /** After `n` failures the backoff is 2^(n-1) minutes, capped at 60. */
  lemma {:induction false} BackoffDoubles(n: nat)
    requires n >= 1
    ensures BackoffAfter(n) == Min(Pow2(n - 1), MAX_BACKOFF_MINUTES)
  {
    if n > 1 {
      BackoffDoubles(n - 1);
    }
  }

  /** From the seventh failure on, the backoff stays at the 60-minute cap. */
  lemma {:induction false} BackoffCapped(n: nat)
    requires n >= 7
    ensures BackoffAfter(n) == MAX_BACKOFF_MINUTES
  {
    BackoffDoubles(n);
    Pow2Grows(n - 1);
  }

  lemma {:induction false} Pow2Grows(n: nat)
    requires n >= 6
    ensures Pow2(n) >= 64
  {
    if n > 6 {
      Pow2Grows(n - 1);
    }
  }

  /**
   * The backoff loop of `cleanup()`: visits the keys in an unspecified order
   * and removes the stale ones; a key without a username part stops the loop
   * (`ok` false) with the entries visited so far already removed.
   */
  method PruneBackoff(backoff: map<string, int>, ips: map<string, AttemptInfo>, users: map<string, AttemptInfo>)
    returns (kept: map<string, int>, ok: bool)
    ensures ok <==> forall k | k in backoff :: WellFormedKey(k)
    ensures ok ==> kept == Fresh(backoff, ips, users)
    ensures forall k | k in kept :: k in backoff && kept[k] == backoff[k]
    ensures forall k | k in backoff && !WellFormedKey(k) :: k in kept
  {
    kept := backoff;
    var remaining := backoff.Keys;
    while remaining != {}
      invariant PruneInvariant(backoff, kept, remaining, ips, users)
      decreases remaining
    {
      var key :| key in remaining;
      if !WellFormedKey(key) {
        PruneStopped(backoff, kept, remaining, ips, users);
        return kept, false;
      }
      PruneStep(backoff, kept, remaining, key, ips, users);
      if Stale(key, ips, users) {
        kept := kept - {key};
      }
      remaining := remaining - {key};
    }
    ok := true;
    FreshByKeys(kept, backoff, ips, users);
  }

  /**
   * The state of the backoff loop: the keys not yet visited are all kept, the
   * visited ones are well formed and kept exactly when not stale.
   */
  ghost predicate PruneInvariant(backoff: map<string, int>, kept: map<string, int>, remaining: set<string>,
                                 ips: map<string, AttemptInfo>, users: map<string, AttemptInfo>)
  {
    remaining <= backoff.Keys
    && (forall k | k in kept :: k in backoff && kept[k] == backoff[k])
    && (forall k | k in remaining :: k in kept)
    && (forall k | k in backoff && k !in remaining :: WellFormedKey(k) && (k in kept <==> !Stale(k, ips, users)))
  }

  lemma PruneStep(backoff: map<string, int>, kept: map<string, int>, remaining: set<string>, key: string,
                  ips: map<string, AttemptInfo>, users: map<string, AttemptInfo>)
    requires PruneInvariant(backoff, kept, remaining, ips, users) && key in remaining && WellFormedKey(key)
    ensures PruneInvariant(backoff, if Stale(key, ips, users) then kept - {key} else kept, remaining - {key}, ips, users)
  {
  }

  lemma PruneStopped(backoff: map<string, int>, kept: map<string, int>, remaining: set<string>,
                     ips: map<string, AttemptInfo>, users: map<string, AttemptInfo>)
    requires PruneInvariant(backoff, kept, remaining, ips, users)
    ensures forall k | k in kept :: k in backoff && kept[k] == backoff[k]
    ensures forall k | k in backoff && !WellFormedKey(k) :: k in kept
  {
  }

  /** A map that keeps exactly the entries of `backoff` that are not stale is `Fresh`. */
  lemma FreshByKeys(kept: map<string, int>, backoff: map<string, int>, ips: map<string, AttemptInfo>,
                    users: map<string, AttemptInfo>)
    requires forall k | k in backoff :: WellFormedKey(k)
    requires forall k | k in kept :: k in backoff && kept[k] == backoff[k]
    requires forall k | k in backoff :: (k in kept <==> !Stale(k, ips, users))
    ensures kept == Fresh(backoff, ips, users)
  {
    var f := Fresh(backoff, ips, users);
    forall k | k in kept
      ensures k in f && kept[k] == f[k]
    {
      assert !Stale(k, ips, users);
    }
    forall k | k in f
      ensures k in kept
    {
      assert k in backoff && !Stale(k, ips, users);
    }
    SameEntries(kept, f);
  }

  lemma SameEntries(a: map<string, int>, b: map<string, int>)
    requires forall k | k in a :: k in b && a[k] == b[k]
    requires forall k | k in b :: k in a
    ensures a == b
  {
    assert a.Keys == b.Keys;
  }

  class EnhancedRateLimiter {
    var ipAttempts: map<string, AttemptInfo>
    var usernameAttempts: map<string, AttemptInfo>
    var backoffMinutes: map<string, int>

    /** Every backoff lies between one minute and the cap. */
    ghost predicate Valid()
      reads this
    {
      forall k | k in backoffMinutes :: 1 <= backoffMinutes[k] <= MAX_BACKOFF_MINUTES
    }

    constructor()
      ensures Valid() && ipAttempts == map[] && usernameAttempts == map[] && backoffMinutes == map[]
    {
      ipAttempts := map[];
      usernameAttempts := map[];
      backoffMinutes := map[];
    }

    /**
     * `cleanup()`: drops expired IP-map entries (5-minute window) and expired
     * username-map entries (1-hour window), then every backoff entry whose IP
     * and username both lack a live counter. The backoff entries are visited in
     * an unspecified order; a key that does not split into two parts raises
     * the exception, leaving the entries visited before it already dropped.
     */
    method Cleanup(now: int) returns (r: Result<(), string>)
      requires Valid()
      modifies this
      ensures Valid()
      ensures ipAttempts == Unexpired(old(ipAttempts), PRIMARY_WINDOW_MS, now)
      ensures usernameAttempts == Unexpired(old(usernameAttempts), SECONDARY_WINDOW_MS, now)
      ensures r.Ok? <==> forall k | k in old(backoffMinutes) :: WellFormedKey(k)
      ensures r.Ok? ==> backoffMinutes == Fresh(old(backoffMinutes), ipAttempts, usernameAttempts)
      ensures r.Err? ==> r.error == INDEX_OUT_OF_BOUNDS
      ensures forall k | k in backoffMinutes :: k in old(backoffMinutes) && backoffMinutes[k] == old(backoffMinutes)[k]
      ensures forall k | k in old(backoffMinutes) && !WellFormedKey(k) :: k in backoffMinutes
    {
      var ips := Unexpired(ipAttempts, PRIMARY_WINDOW_MS, now);
      var users := Unexpired(usernameAttempts, SECONDARY_WINDOW_MS, now);
      ipAttempts, usernameAttempts := ips, users;
      var kept, ok := PruneBackoff(backoffMinutes, ips, users);
      backoffMinutes := kept;
      r := if ok then Ok(()) else Err(INDEX_OUT_OF_BOUNDS);
    }

    /** `checkSingleRateLimit(key, max, window)`: counts the attempt in the IP map and allows it while the count is at most `max`. */
    method CheckSingleRateLimit(key: string, maxAttempts: int, windowMs: int, now: int) returns (ok: bool)
      modifies this
      ensures ipAttempts == old(ipAttempts)[key := Counted(old(ipAttempts), key, windowMs, now)]
      ensures ok <==> Counted(old(ipAttempts), key, windowMs, now).count <= maxAttempts
      ensures usernameAttempts == old(usernameAttempts) && backoffMinutes == old(backoffMinutes)
    {
      var info := Counted(ipAttempts, key, windowMs, now);
      ipAttempts := ipAttempts[key := info];
      ok := info.count <= maxAttempts;
    }

    /** The username check with its counter in the username map, where the one-hour cleanup applies to it. */
    method CheckUserRateLimit(key: string, now: int) returns (ok: bool)
      modifies this
      ensures usernameAttempts == old(usernameAttempts)[key := Counted(old(usernameAttempts), key, SECONDARY_WINDOW_MS, now)]
      ensures ok <==> Counted(old(usernameAttempts), key, SECONDARY_WINDOW_MS, now).count <= SECONDARY_MAX_ATTEMPTS
      ensures ipAttempts == old(ipAttempts) && backoffMinutes == old(backoffMinutes)
    {
      var info := Counted(usernameAttempts, key, SECONDARY_WINDOW_MS, now);
      usernameAttempts := usernameAttempts[key := info];
      ok := info.count <= SECONDARY_MAX_ATTEMPTS;
    }

    /**
     * `checkRateLimit(ip, username)` as written: after the cleanup, the IP
     * counter and then, for a non-empty username, the username counter are
     * counted; both live in the IP map, so the username counter is dropped by
     * the 5-minute cleanup. An active backoff for the pair refuses.
     */
    method CheckRateLimitAsWritten(ip: Option<string>, username: Option<string>, now: int) returns (r: Result<bool, string>)
      requires Valid()
      modifies this
      ensures Valid()
      ensures r.Err? <==> exists k | k in old(backoffMinutes) :: !WellFormedKey(k)
      ensures r.Ok? ==>
                var ips := Unexpired(old(ipAttempts), PRIMARY_WINDOW_MS, now);
                var users := Unexpired(old(usernameAttempts), SECONDARY_WINDOW_MS, now);
                var ipInfo := Counted(ips, IpKey(ip), PRIMARY_WINDOW_MS, now);
                usernameAttempts == users
                && backoffMinutes == Fresh(old(backoffMinutes), ips, users)
                && if ipInfo.count > PRIMARY_MAX_ATTEMPTS || !HasName(username) then
                     ipAttempts == ips[IpKey(ip) := ipInfo] && r.value == (ipInfo.count <= PRIMARY_MAX_ATTEMPTS)
                   else
                     var afterIp := ips[IpKey(ip) := ipInfo];
                     var userInfo := Counted(afterIp, UserKey(username.value), SECONDARY_WINDOW_MS, now);
                     ipAttempts == afterIp[UserKey(username.value) := userInfo]
                     && (r.value <==> userInfo.count <= SECONDARY_MAX_ATTEMPTS
                                      && BackoffKey(ip, username.value) !in backoffMinutes)
    {
      var cleaned := Cleanup(now);
      if cleaned.Err? {
        return Err(cleaned.error);
      }
      var ipOk := CheckSingleRateLimit(IpKey(ip), PRIMARY_MAX_ATTEMPTS, PRIMARY_WINDOW_MS, now);
      if !ipOk {
        return Ok(false);
      }
      if HasName(username) {
        var userOk := CheckSingleRateLimit(UserKey(username.value), SECONDARY_MAX_ATTEMPTS, SECONDARY_WINDOW_MS, now);
        if !userOk {
          return Ok(false);
        }
        if BackoffKey(ip, username.value) in backoffMinutes {
          return Ok(false);
        }
      }
      return Ok(true);
    }

    /**
     * `checkRateLimit(ip, username)` with the username counter kept in the
     * username map, so that it lives for its one-hour window.
     */
    method CheckRateLimit(ip: Option<string>, username: Option<string>, now: int) returns (r: Result<bool, string>)
      requires Valid()
      modifies this
      ensures Valid()
      ensures r.Err? <==> exists k | k in old(backoffMinutes) :: !WellFormedKey(k)
      ensures r.Ok? ==>
                var ips := Unexpired(old(ipAttempts), PRIMARY_WINDOW_MS, now);
                var users := Unexpired(old(usernameAttempts), SECONDARY_WINDOW_MS, now);
                var ipInfo := Counted(ips, IpKey(ip), PRIMARY_WINDOW_MS, now);
                ipAttempts == ips[IpKey(ip) := ipInfo]
                && backoffMinutes == Fresh(old(backoffMinutes), ips, users)
                && if ipInfo.count > PRIMARY_MAX_ATTEMPTS || !HasName(username) then
                     usernameAttempts == users && r.value == (ipInfo.count <= PRIMARY_MAX_ATTEMPTS)
                   else
                     var userInfo := Counted(users, UserKey(username.value), SECONDARY_WINDOW_MS, now);
                     usernameAttempts == users[UserKey(username.value) := userInfo]
                     && (r.value <==> userInfo.count <= SECONDARY_MAX_ATTEMPTS
                                      && BackoffKey(ip, username.value) !in backoffMinutes)
    {
      var cleaned := Cleanup(now);
      if cleaned.Err? {
        return Err(cleaned.error);
      }
      var ipOk := CheckSingleRateLimit(IpKey(ip), PRIMARY_MAX_ATTEMPTS, PRIMARY_WINDOW_MS, now);
      if !ipOk {
        return Ok(false);
      }
      if HasName(username) {
        var userOk := CheckUserRateLimit(UserKey(username.value), now);
        if !userOk {
          return Ok(false);
        }
        if BackoffKey(ip, username.value) in backoffMinutes {
          return Ok(false);
        }
      }
      return Ok(true);
    }

    /** `recordFailedAttempt(ip, username)`: for a non-empty username, starts or doubles the pair's backoff. */
    method RecordFailedAttempt(ip: Option<string>, username: Option<string>)
      requires Valid()
      modifies this
      ensures Valid()
      ensures !HasName(username) ==> backoffMinutes == old(backoffMinutes)
      ensures HasName(username) ==>
                var key := BackoffKey(ip, username.value);
                backoffMinutes == old(backoffMinutes)[key := NextBackoff(if key in old(backoffMinutes) then Some(old(backoffMinutes)[key]) else None)]
      ensures ipAttempts == old(ipAttempts) && usernameAttempts == old(usernameAttempts)
    {
      if !HasName(username) {
        return;
      }
      var key := BackoffKey(ip, username.value);
      if key !in backoffMinutes {
        backoffMinutes := backoffMinutes[key := 1];
      } else {
        backoffMinutes := backoffMinutes[key := Min(backoffMinutes[key] * 2, MAX_BACKOFF_MINUTES)];
      }
    }

    /**
     * `resetLimit(ip, username)`: drops the IP counter, and for a non-empty
     * username its username-map counter and, with an IP, the pair's backoff.
     */
    method ResetLimit(ip: Option<string>, username: Option<string>)
      requires Valid()
      modifies this
      ensures Valid()
      ensures ipAttempts == if ip.Some? then old(ipAttempts) - {IpKey(ip)} else old(ipAttempts)
      ensures usernameAttempts == if HasName(username) then old(usernameAttempts) - {UserKey(username.value)} else old(usernameAttempts)
      ensures backoffMinutes == if HasName(username) && ip.Some? then old(backoffMinutes) - {BackoffKey(ip, username.value)}
                                else old(backoffMinutes)
    {
      if ip.Some? {
        ipAttempts := ipAttempts - {IpKey(ip)};
      }
      if HasName(username) {
        usernameAttempts := usernameAttempts - {UserKey(username.value)};
        if ip.Some? {
          backoffMinutes := backoffMinutes - {BackoffKey(ip, username.value)};
        }
      }
    }
  }
}

/** Ten attempts for one username from two addresses within a minute, then an eleventh five minutes later. */
module RateLimiterScenarios {
  import opened Wrappers
  import opened RateLimiter

  /** The count a key's counter holds, 0 without one. */
  function CountOf(m: map<string, AttemptInfo>, key: string): int {
    if key in m then m[key].count else 0
  }

  /** Five attempts from a new address `ip` for user `u` at time 0, all counters having started at time 0. */
  method FiveAttemptsAsWritten(l: EnhancedRateLimiter, ip: string)
    requires l.Valid() && l.backoffMinutes == map[] && l.usernameAttempts == map[]
    requires forall k | k in l.ipAttempts :: l.ipAttempts[k].windowStart == 0
    requires CountOf(l.ipAttempts, IpKey(Some(ip))) == 0 && IpKey(Some(ip)) != UserKey("u")
    modifies l
    ensures l.Valid() && l.backoffMinutes == map[] && l.usernameAttempts == map[]
    ensures forall k | k in l.ipAttempts :: l.ipAttempts[k].windowStart == 0
    ensures CountOf(l.ipAttempts, UserKey("u")) == old(CountOf(l.ipAttempts, UserKey("u"))) + 5
    ensures l.ipAttempts.Keys <= old(l.ipAttempts.Keys) + {IpKey(Some(ip)), UserKey("u")}
  {
    var i := 0;
    while i < 5
      invariant 0 <= i <= 5
      invariant l.Valid() && l.backoffMinutes == map[] && l.usernameAttempts == map[]
      invariant forall k | k in l.ipAttempts :: l.ipAttempts[k].windowStart == 0
      invariant CountOf(l.ipAttempts, UserKey("u")) == old(CountOf(l.ipAttempts, UserKey("u"))) + i
      invariant l.ipAttempts.Keys <= old(l.ipAttempts.Keys) + {IpKey(Some(ip)), UserKey("u")}
      invariant CountOf(l.ipAttempts, IpKey(Some(ip))) == i
    {
      var r := l.CheckRateLimitAsWritten(Some(ip), Some("u"), 0);
      i := i + 1;
    }
  }

  /**
   * As written: ten attempts for `u` from two addresses at time 0 exhaust the
   * ten-per-hour allowance, yet an eleventh from a third address at 300001 ms
   * is allowed, because the cleanup dropped the username counter with the
   * five-minute window.
   */
  method UsernameWindowAsWritten() returns (r: Result<bool, string>)
    ensures r == Ok(true)
  {
    var l := new EnhancedRateLimiter();
    FiveAttemptsAsWritten(l, "a");
    assert IpKey(Some("b")) == "ip:b" && UserKey("u") == "user:u" && IpKey(Some("a")) == "ip:a";
    FiveAttemptsAsWritten(l, "b");
    assert CountOf(l.ipAttempts, UserKey("u")) == 10;
    r := l.CheckRateLimitAsWritten(Some("c"), Some("u"), 300001);
  }

  /** Five attempts from a new address `ip` for user `u` at time 0, with the username counter in its own map. */
  method FiveAttempts(l: EnhancedRateLimiter, ip: string)
    requires l.Valid() && l.backoffMinutes == map[]
    requires forall k | k in l.ipAttempts :: l.ipAttempts[k].windowStart == 0
    requires forall k | k in l.usernameAttempts :: l.usernameAttempts[k].windowStart == 0
    requires CountOf(l.ipAttempts, IpKey(Some(ip))) == 0
    modifies l
    ensures l.Valid() && l.backoffMinutes == map[]
    ensures forall k | k in l.ipAttempts :: l.ipAttempts[k].windowStart == 0
    ensures forall k | k in l.usernameAttempts :: l.usernameAttempts[k].windowStart == 0
    ensures CountOf(l.usernameAttempts, UserKey("u")) == old(CountOf(l.usernameAttempts, UserKey("u"))) + 5
    ensures l.ipAttempts.Keys <= old(l.ipAttempts.Keys) + {IpKey(Some(ip))}
  {
    var i := 0;
    while i < 5
      invariant 0 <= i <= 5
      invariant l.Valid() && l.backoffMinutes == map[]
      invariant forall k | k in l.ipAttempts :: l.ipAttempts[k].windowStart == 0
      invariant forall k | k in l.usernameAttempts :: l.usernameAttempts[k].windowStart == 0
      invariant CountOf(l.usernameAttempts, UserKey("u")) == old(CountOf(l.usernameAttempts, UserKey("u"))) + i
      invariant l.ipAttempts.Keys <= old(l.ipAttempts.Keys) + {IpKey(Some(ip))}
      invariant CountOf(l.ipAttempts, IpKey(Some(ip))) == i
    {
      var r := l.CheckRateLimit(Some(ip), Some("u"), 0);
      i := i + 1;
    }
  }

  /** With the username counter in its own map the same eleventh attempt is refused. */
  method UsernameWindow() returns (r: Result<bool, string>)
    ensures r == Ok(false)
  {
    var l := new EnhancedRateLimiter();
    FiveAttempts(l, "a");
    assert IpKey(Some("b")) == "ip:b" && IpKey(Some("a")) == "ip:a";
    FiveAttempts(l, "b");
    assert CountOf(l.usernameAttempts, UserKey("u")) == 10;
    r := l.CheckRateLimit(Some("c"), Some("u"), 300001);
  }
}
