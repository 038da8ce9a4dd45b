/**
 * `InMemoryJwtBlacklistService`: revoked tokens with the instant they were
 * revoked. An entry expires once the JWT lifetime has passed since then.
 * Time is the `now` parameter, in milliseconds.
 */
module JwtBlacklist {

  /** `Instant.now().isAfter(blacklistedAt.plusMillis(jwtExpiration))`. */
  predicate Expired(blacklistedAt: int, jwtExpiration: int, now: int) {
    now > blacklistedAt + jwtExpiration
  }

  /** The entries that have not expired at `now`. */
  function Live(m: map<string, int>, jwtExpiration: int, now: int): (r: map<string, int>)
    ensures forall t | t in r :: t in m && r[t] == m[t]
    ensures forall t | t in m :: t in r <==> !Expired(m[t], jwtExpiration, now)
  {
    map t | t in m && !Expired(m[t], jwtExpiration, now) :: m[t]
  }

  /** The tokens whose entries have expired at `now`. */
  function ExpiredTokens(m: map<string, int>, jwtExpiration: int, now: int): set<string> {
    set t | t in m && Expired(m[t], jwtExpiration, now)
  }

  /** The number of entries a cleanup removes is the number of expired entries. */
  lemma RemovedAreExpired(m: map<string, int>, jwtExpiration: int, now: int)
    ensures |m| - |Live(m, jwtExpiration, now)| == |ExpiredTokens(m, jwtExpiration, now)|
    ensures |ExpiredTokens(m, jwtExpiration, now)| <= |m|
  {
    var live := Live(m, jwtExpiration, now);
    var gone := ExpiredTokens(m, jwtExpiration, now);
    assert m.Keys == live.Keys + gone;
    assert live.Keys * gone == {};
    assert |m.Keys| == |live.Keys| + |gone|;
  }

  class InMemoryJwtBlacklistService {
    var blacklistedTokens: map<string, int>
    /** `application.security.jwt.expiration`, in milliseconds. */
    const jwtExpiration: int

    constructor(jwtExpiration: int)
      ensures blacklistedTokens == map[] && this.jwtExpiration == jwtExpiration
    {
      blacklistedTokens := map[];
      this.jwtExpiration := jwtExpiration;
    }

    /** Whether `token` is on the list at `now` (read-only; `IsBlacklisted` also drops an expired entry). */
    predicate Listed(token: string, now: int)
      reads this
    {
      token in blacklistedTokens && !Expired(blacklistedTokens[token], jwtExpiration, now)
    }

    /** `blacklistToken(token)`: records the token with the current instant, replacing an earlier entry. */
    method BlacklistToken(token: string, now: int)
      modifies this
      ensures blacklistedTokens == old(blacklistedTokens)[token := now]
      ensures jwtExpiration >= 0 ==> Listed(token, now)
    {
      blacklistedTokens := blacklistedTokens[token := now];
    }

    /**
     * `isBlacklisted(token)`: false for an unknown token; an expired entry is
     * removed and reported as not blacklisted; otherwise true.
     */
    method IsBlacklisted(token: string, now: int) returns (r: bool)
      modifies this
      ensures r <==> old(Listed(token, now))
      ensures blacklistedTokens == if token in old(blacklistedTokens) && !r then old(blacklistedTokens) - {token}
                                   else old(blacklistedTokens)
      ensures !Listed(token, now) <==> !r
    {
      if token !in blacklistedTokens {
        return false;
      }
      var blacklistedAt := blacklistedTokens[token];
      if Expired(blacklistedAt, jwtExpiration, now) {
        blacklistedTokens := blacklistedTokens - {token};
        return false;
      }
      return true;
    }

    /** `cleanupExpiredTokens()`: drops every expired entry and reports how many it dropped. */
    method CleanupExpiredTokens(now: int) returns (removedCount: int)
      modifies this
      ensures blacklistedTokens == Live(old(blacklistedTokens), jwtExpiration, now)
      ensures removedCount == |old(blacklistedTokens)| - |blacklistedTokens|
      ensures removedCount == |ExpiredTokens(old(blacklistedTokens), jwtExpiration, now)|
      ensures forall t :: Listed(t, now) <==> old(Listed(t, now))
    {
      var initialSize := |blacklistedTokens|;
      RemovedAreExpired(blacklistedTokens, jwtExpiration, now);
      blacklistedTokens := Live(blacklistedTokens, jwtExpiration, now);
      removedCount := initialSize - |blacklistedTokens|;
    }
  }

  /** A revoked token stays revoked for exactly the JWT lifetime. */
  method RevokedForLifetime(token: string, at: int, jwtExpiration: int, now: int) returns (r: bool)
    ensures r <==> now <= at + jwtExpiration
  {
    var service := new InMemoryJwtBlacklistService(jwtExpiration);
    service.BlacklistToken(token, at);
    r := service.IsBlacklisted(token, now);
  }
}
