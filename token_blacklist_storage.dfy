/** The in-process registry of revoked tokens (token -> expiry instant) and of
    per-user token versions (username -> counter). Expired entries are
    purged lazily: before a lookup, after a revocation, and by the scheduled
    sweep. */
module TokenBlacklist {
  import opened Basics

  // ---------------------------------------------------------------------
  // The revoked-token map and its purge

  /** The map left once every entry whose expiry is strictly before `now`
      has been removed: exactly the entries expiring at `now` or later, with
      their expiry unchanged. */
  function RemoveExpired(tokens: map<string, Instant>, now: Instant): (r: map<string, Instant>)
    ensures forall t :: t in r <==> t in tokens && now <= tokens[t]
    ensures forall t :: t in r ==> r[t] == tokens[t]
  {
    map t | t in tokens && !(tokens[t] < now) :: tokens[t]
  }

  /** The tokens a purge at `now` discards. */
  function ExpiredTokens(tokens: map<string, Instant>, now: Instant): set<string> {
    set t | t in tokens && tokens[t] < now
  }

  /** Purging twice at the same instant is purging once. */
  lemma RemoveExpiredIdempotent(tokens: map<string, Instant>, now: Instant)
    ensures RemoveExpired(RemoveExpired(tokens, now), now) == RemoveExpired(tokens, now)
  {
    var once := RemoveExpired(tokens, now);
    var twice := RemoveExpired(once, now);
    assert twice.Keys == once.Keys;
  }

  /** The purge removes as many entries as there are expired tokens, so the
      count the scheduled sweep reports is the number of expired entries. */
  lemma RemovedCount(tokens: map<string, Instant>, now: Instant)
    ensures |tokens| == |RemoveExpired(tokens, now)| + |ExpiredTokens(tokens, now)|
  {
    var kept := RemoveExpired(tokens, now).Keys;
    var gone := ExpiredTokens(tokens, now);
    assert tokens.Keys == kept + gone;
    assert kept * gone == {};
    assert |tokens.Keys| == |kept| + |gone|;
    assert |RemoveExpired(tokens, now).Keys| == |kept|;
  }

  /** `blacklistToken` after `isBlacklisted` at the same instant: the purge
      before the insertion changes nothing that the purge after it would not
      also remove. */
  lemma PurgeInsertPurge(tokens: map<string, Instant>, token: string, expiry: Instant, now: Instant)
    ensures RemoveExpired(RemoveExpired(tokens, now)[token := expiry], now)
         == RemoveExpired(tokens[token := expiry], now)
  {
    var lhs := RemoveExpired(RemoveExpired(tokens, now)[token := expiry], now);
    var rhs := RemoveExpired(tokens[token := expiry], now);
    assert lhs.Keys == rhs.Keys;
  }

  /** A token just recorded with an expiry not before `now` survives the
      purge of `blacklistToken` and that of a following `isBlacklisted` at
      the same instant, while a token recorded as already expired survives
      neither. */
  lemma {:induction false} RecordedTokenIsBlacklisted(tokens: map<string, Instant>, token: string, expiry: Instant, now: Instant)
    ensures now <= expiry <==> token in RemoveExpired(RemoveExpired(tokens[token := expiry], now), now)
  {
    RemoveExpiredIdempotent(tokens[token := expiry], now);
  }

  // ---------------------------------------------------------------------
  // The token-version counters

  /** `getOrDefault(username, 0)` on the version map. */
  function VersionOf(versions: map<string, int>, username: string): int {
    if username in versions then versions[username] else 0
  }

  /** The remapping function given to `compute`, on unbounded integers: an
      absent counter starts at 1, a present one goes up by one. */
  function NextVersion(oldVersion: Option<int>): (v: int)
    ensures oldVersion.None? ==> v == 1
    ensures oldVersion.Some? ==> v > oldVersion.value
  {
    match oldVersion
    case None => 1
    case Some(previous) => previous + 1
  }

  /** The version map after `compute(username, ...)`. */
  function Bumped(versions: map<string, int>, username: string): (r: map<string, int>)
    ensures r.Keys == versions.Keys + {username}
  {
    versions[username := NextVersion(if username in versions then Some(versions[username]) else None)]
  }

  /** Every version that exists is at least 1: versions are created by a
      bump from absent (0) and only grow. */
  ghost predicate VersionsPositive(versions: map<string, int>) {
    forall u :: u in versions ==> versions[u] >= 1
  }

  /** No key was removed and no counter went down. */
  ghost predicate NeverDecreased(before: map<string, int>, after: map<string, int>) {
    forall u :: u in before ==> u in after && before[u] <= after[u]
  }

  /** A bump raises the user's version by exactly one (absent counts as 0),
      leaves every other user's version as it was, and keeps every counter
      at least 1. */
  lemma BumpedVersion(versions: map<string, int>, username: string)
    requires VersionsPositive(versions)
    ensures VersionOf(Bumped(versions, username), username) == VersionOf(versions, username) + 1
    ensures forall u :: u != username ==> VersionOf(Bumped(versions, username), u) == VersionOf(versions, u)
    ensures NeverDecreased(versions, Bumped(versions, username))
    ensures VersionsPositive(Bumped(versions, username))
  {
  }

  /** Under the invariant, version 0 means exactly "never revoked". */
  lemma VersionZeroIffNeverRevoked(versions: map<string, int>, username: string)
    requires VersionsPositive(versions)
    ensures VersionOf(versions, username) == 0 <==> username !in versions
  {
  }

  // ---------------------------------------------------------------------
  // The counter as the source writes it, on Java's 32-bit int

  newtype int32 = x: int | -0x8000_0000 <= x < 0x8000_0000

  /** Java's `int` addition, which wraps around modulo 2^32. */
  function AddInt32(a: int32, b: int32): (r: int32)
    ensures -0x8000_0000 <= a as int + b as int < 0x8000_0000 ==> r as int == a as int + b as int
  {
    (((a as int + b as int + 0x8000_0000) % 0x1_0000_0000) - 0x8000_0000) as int32
  }

  /** The same remapping with `Integer` arithmetic: the increment wraps
      around at 2^31. */
  function NextVersionAsWritten(oldVersion: Option<int32>): int32 {
    match oldVersion
    case None => 1
    case Some(previous) => AddInt32(previous, 1)
  }

  /** The counter of a user with 2^31 - 1 revocations wraps to the most
      negative `int` on the next one: the version goes down. */
  lemma AsWrittenVersionWraps()
    ensures NextVersionAsWritten(Some(0x7FFF_FFFF)) == -0x8000_0000
    ensures NextVersionAsWritten(Some(0x7FFF_FFFF)) < 0x7FFF_FFFF
  {
  }

  /** Below the wrap-around point the source's counter and the model's agree. */
  lemma AsWrittenAgreesBelowWrap(oldVersion: Option<int32>)
    requires oldVersion.Some? ==> oldVersion.value < 0x7FFF_FFFF
    ensures NextVersionAsWritten(oldVersion) as int
         == NextVersion(if oldVersion.Some? then Some(oldVersion.value as int) else None)
  {
  }

  // ---------------------------------------------------------------------
  // The storage component

  class TokenBlacklistStorage {
    var blacklistedTokens: map<string, Instant>
    var userTokenVersions: map<string, int>

    ghost predicate Valid()
      reads this
    {
      VersionsPositive(userTokenVersions)
    }

    /** Both maps start empty when the application starts. */
    constructor ()
      ensures Valid()
      ensures blacklistedTokens == map[] && userTokenVersions == map[]
    {
      blacklistedTokens := map[];
      userTokenVersions := map[];
    }

    /** Records `token` as revoked until `expiryDate`, bumps the user's
        version and purges expired entries. With a null username the
        insertion happens and `compute` then throws (ok is false) before the
        version or the purge is touched. */
    method BlacklistToken(token: string, username: Option<string>, expiryDate: Instant, now: Instant)
      returns (ok: bool)
      requires Valid()
      modifies this
      ensures Valid()
      ensures ok <==> username.Some?
      ensures ok ==> blacklistedTokens == RemoveExpired(old(blacklistedTokens)[token := expiryDate], now)
      ensures ok ==> userTokenVersions == Bumped(old(userTokenVersions), username.value)
      ensures !ok ==> blacklistedTokens == old(blacklistedTokens)[token := expiryDate]
      ensures !ok ==> userTokenVersions == old(userTokenVersions)
      ensures NeverDecreased(old(userTokenVersions), userTokenVersions)
    {
      blacklistedTokens := blacklistedTokens[token := expiryDate];
      if username.None? {
        ok := false;
        return;
      }
      BumpedVersion(userTokenVersions, username.value);
      userTokenVersions := Bumped(userTokenVersions, username.value);
      RemoveExpiredTokens(now);
      ok := true;
    }

    /** Purges expired entries, then reports membership: true exactly when
        the token was recorded with an expiry not before `now`. */
    method IsBlacklisted(token: string, now: Instant) returns (b: bool)
      modifies this`blacklistedTokens
      ensures blacklistedTokens == RemoveExpired(old(blacklistedTokens), now)
      ensures b <==> token in old(blacklistedTokens) && now <= old(blacklistedTokens)[token]
    {
      RemoveExpiredTokens(now);
      b := token in blacklistedTokens;
    }

    /** The user's current version, 0 when none was ever recorded. */
    function GetUserTokenVersion(username: string): (v: int)
      reads this
      ensures username !in userTokenVersions ==> v == 0
      ensures Valid() ==> (v == 0 <==> username !in userTokenVersions)
    {
      VersionOf(userTokenVersions, username)
    }

    method RemoveExpiredTokens(now: Instant)
      modifies this`blacklistedTokens
      ensures blacklistedTokens == RemoveExpired(old(blacklistedTokens), now)
    {
      blacklistedTokens := RemoveExpired(blacklistedTokens, now);
    }

    /** The scheduled sweep; returns the count it logs. */
    method CleanupExpiredTokens(now: Instant) returns (removedCount: int)
      modifies this`blacklistedTokens
      ensures blacklistedTokens == RemoveExpired(old(blacklistedTokens), now)
      ensures removedCount == |ExpiredTokens(old(blacklistedTokens), now)|
      ensures userTokenVersions == old(userTokenVersions)
    {
      var beforeSize := |blacklistedTokens|;
      RemovedCount(blacklistedTokens, now);
      RemoveExpiredTokens(now);
      removedCount := beforeSize - |blacklistedTokens|;
    }
  }
}
