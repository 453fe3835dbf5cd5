/** The per-request authentication filter: extract the bearer token, refuse a
    revoked one, parse it, load the user, validate the token against the
    user's current version and put the authentication into the request's
    security context. Every run either sends one 401 error or continues the
    filter chain. */
module JwtRequestFilter {
  import opened Basics
  import opened TokenBlacklist
  import opened SpringSecurity
  import opened JwtToken

  const SC_UNAUTHORIZED: int := 401
  const TOKEN_REVOKED: string := "Token has been revoked"
  const INVALID_TOKEN_VERSION: string := "Invalid token version"
  const INVALID_TOKEN: string := "Invalid token"

  /** `chain.doFilter(...)` or `response.sendError(status, message)`. */
  datatype FilterOutcome = ContinueChain | SendError(status: int, message: string)

  /** The outcome of a run and the authentication the context holds after it. */
  datatype FilterResult = FilterResult(outcome: FilterOutcome, authentication: Option<Authentication>)

  /** What `doFilterInternal` decides, from the revoked-token map and the
      version map it reads, the users `loadUserByUsername` can load and the
      authentication already in the context. Every error is a 401 with one
      of the three messages and leaves the context as it was; "Token has
      been revoked" is sent exactly for a bearer token still in the purged
      revoked-token map; an authentication already present is never
      replaced. */
  function Filter(
    codec: Codec, blacklist: map<string, Instant>, versions: map<string, int>,
    users: map<string, UserDetails>, authorizationHeader: Option<string>,
    existing: Option<Authentication>, now: Instant): (r: FilterResult)
    ensures r.outcome.SendError? ==>
      && r.outcome.status == SC_UNAUTHORIZED
      && r.outcome.message in {TOKEN_REVOKED, INVALID_TOKEN, INVALID_TOKEN_VERSION}
      && r.authentication == existing
    ensures r.outcome == SendError(SC_UNAUTHORIZED, TOKEN_REVOKED) <==>
      BearerToken(authorizationHeader).Some? && BearerToken(authorizationHeader).value in RemoveExpired(blacklist, now)
    ensures existing.Some? ==> r.authentication == existing
  {
    match BearerToken(authorizationHeader)
    case None => FilterResult(ContinueChain, existing)
    case Some(jwt) =>
      if jwt in RemoveExpired(blacklist, now) then
        FilterResult(SendError(SC_UNAUTHORIZED, TOKEN_REVOKED), existing)
      else
        match GetUsernameFromToken(codec, jwt, now)
        case Err(_) => FilterResult(SendError(SC_UNAUTHORIZED, INVALID_TOKEN), existing)
        case Ok(None) => FilterResult(ContinueChain, existing)
        case Ok(Some(username)) =>
          if existing.Some? then FilterResult(ContinueChain, existing)
          else if username !in users then
            // UsernameNotFoundException, caught with the rest
            FilterResult(SendError(SC_UNAUTHORIZED, INVALID_TOKEN), existing)
          else if ValidateToken(codec, versions, jwt, users[username], now) then
            FilterResult(ContinueChain, Some(Authentication(users[username], users[username].authorities)))
          else
            FilterResult(SendError(SC_UNAUTHORIZED, INVALID_TOKEN_VERSION), existing)
  }

  /** `doFilterInternal`, step by step with early returns. The only state
      it changes is the purge of expired revoked tokens (when a bearer token
      is present) and the security context. */
  method DoFilterInternal(
    codec: Codec, storage: TokenBlacklistStorage, context: SecurityContext,
    users: map<string, UserDetails>, authorizationHeader: Option<string>, now: Instant)
    returns (outcome: FilterOutcome)
    modifies storage`blacklistedTokens, context
    ensures outcome == Filter(codec, old(storage.blacklistedTokens), storage.userTokenVersions,
                              users, authorizationHeader, old(context.authentication), now).outcome
    ensures context.authentication == Filter(codec, old(storage.blacklistedTokens), storage.userTokenVersions,
                              users, authorizationHeader, old(context.authentication), now).authentication
    ensures storage.blacklistedTokens == if BearerToken(authorizationHeader).Some?
                                         then RemoveExpired(old(storage.blacklistedTokens), now)
                                         else old(storage.blacklistedTokens)
  {
    var bearer := BearerToken(authorizationHeader);
    if bearer.None? {
      outcome := ContinueChain;
      return;
    }
    var jwt := bearer.value;
    var revoked := storage.IsBlacklisted(jwt, now);
    if revoked {
      outcome := SendError(SC_UNAUTHORIZED, TOKEN_REVOKED);
      return;
    }
    var username := GetUsernameFromToken(codec, jwt, now);
    if username.Err? {
      outcome := SendError(SC_UNAUTHORIZED, INVALID_TOKEN);
      return;
    }
    if username.value.Some? && context.authentication.None? {
      var name := username.value.value;
      if name !in users {
        outcome := SendError(SC_UNAUTHORIZED, INVALID_TOKEN);
        return;
      }
      var userDetails := users[name];
      if ValidateToken(codec, storage.userTokenVersions, jwt, userDetails, now) {
        context.authentication := Some(Authentication(userDetails, userDetails.authorities));
      } else {
        outcome := SendError(SC_UNAUTHORIZED, INVALID_TOKEN_VERSION);
        return;
      }
    }
    outcome := ContinueChain;
  }

  // ---------------------------------------------------------------------
  // Properties of the decision

  /** Without a header, or with one not starting with "Bearer ", the request
      goes on unauthenticated by this filter. */
  lemma NoBearerPassesThrough(
    codec: Codec, blacklist: map<string, Instant>, versions: map<string, int>,
    users: map<string, UserDetails>, authorizationHeader: Option<string>,
    existing: Option<Authentication>, now: Instant)
    requires authorizationHeader.None? || !StartsWith(authorizationHeader.value, BEARER_PREFIX)
    ensures Filter(codec, blacklist, versions, users, authorizationHeader, existing, now)
         == FilterResult(ContinueChain, existing)
  {
  }

  /** A token recorded as revoked until an instant not yet passed is refused
      as revoked, whatever the codec would make of it: the check comes
      before any parsing. */
  lemma RevokedTokenRefused(
    codec: Codec, blacklist: map<string, Instant>, versions: map<string, int>,
    users: map<string, UserDetails>, token: string, existing: Option<Authentication>, now: Instant)
    requires token in blacklist && now <= blacklist[token]
    ensures Filter(codec, blacklist, versions, users, Some(BEARER_PREFIX + token), existing, now)
         == FilterResult(SendError(SC_UNAUTHORIZED, TOKEN_REVOKED), existing)
  {
    BearerTokenRoundTrip(token);
  }

  /** Each run ends in exactly one way: a 401 leaves the context as it was;
      the context changes only when it was empty, the chain continues and
      it then holds the loaded user of the token's subject with exactly that
      user's authorities, for a token that validates against that user. */
  lemma FilterEndsOneWay(
    codec: Codec, blacklist: map<string, Instant>, versions: map<string, int>,
    users: map<string, UserDetails>, authorizationHeader: Option<string>,
    existing: Option<Authentication>, now: Instant)
    ensures var r := Filter(codec, blacklist, versions, users, authorizationHeader, existing, now);
      && (r.outcome.SendError? ==> r.outcome.status == SC_UNAUTHORIZED && r.authentication == existing)
      && (r.authentication != existing ==>
            && existing.None?
            && r.outcome == ContinueChain
            && BearerToken(authorizationHeader).Some?
            && var jwt := BearerToken(authorizationHeader).value;
            && jwt !in RemoveExpired(blacklist, now)
            && codec.verify(jwt).Some?
            && codec.verify(jwt).value.subject.Some?
            && var username := codec.verify(jwt).value.subject.value;
            && username in users
            && ValidateToken(codec, versions, jwt, users[username], now)
            && r.authentication == Some(Authentication(users[username], users[username].authorities)))
  {
  }

  /** With an authentication already in the context, a token that is not
      revoked and parses is neither checked against a user nor validated:
      the request continues with the context untouched. */
  lemma ReentryGuard(
    codec: Codec, blacklist: map<string, Instant>, versions: map<string, int>,
    users: map<string, UserDetails>, token: string, existing: Option<Authentication>, now: Instant)
    requires existing.Some?
    requires token !in RemoveExpired(blacklist, now)
    requires GetClaimsFromToken(codec, token, now).Ok?
    ensures Filter(codec, blacklist, versions, users, Some(BEARER_PREFIX + token), existing, now)
         == FilterResult(ContinueChain, existing)
  {
    BearerTokenRoundTrip(token);
  }

  /** A token the codec cannot parse (bad signature, malformed, expired) and
      that is not revoked gets "Invalid token". */
  lemma UnparsableTokenRefused(
    codec: Codec, blacklist: map<string, Instant>, versions: map<string, int>,
    users: map<string, UserDetails>, token: string, existing: Option<Authentication>, now: Instant)
    requires token !in RemoveExpired(blacklist, now)
    requires GetClaimsFromToken(codec, token, now).Err?
    ensures Filter(codec, blacklist, versions, users, Some(BEARER_PREFIX + token), existing, now)
         == FilterResult(SendError(SC_UNAUTHORIZED, INVALID_TOKEN), existing)
  {
    BearerTokenRoundTrip(token);
  }

  /** Login then request: the token issued to a user, presented before it
      expires and while not revoked, authenticates that user with exactly
      its authorities (when the user loads as it logged in). */
  lemma IssuedTokenAuthenticates(
    codec: Codec, blacklist: map<string, Instant>, versions: map<string, int>,
    users: map<string, UserDetails>, userDetails: UserDetails,
    issuedAt: Instant, expiration: nat, now: Instant)
    requires Sound(codec)
    requires userDetails.username in users && users[userDetails.username] == userDetails
    requires now <= TokenExpiry(issuedAt, expiration)
    requires GenerateToken(codec, versions, userDetails, issuedAt, expiration) !in RemoveExpired(blacklist, now)
    ensures Filter(codec, blacklist, versions, users,
                   Some(BEARER_PREFIX + GenerateToken(codec, versions, userDetails, issuedAt, expiration)), None, now)
         == FilterResult(ContinueChain, Some(Authentication(userDetails, userDetails.authorities)))
  {
    var token := GenerateToken(codec, versions, userDetails, issuedAt, expiration);
    BearerTokenRoundTrip(token);
    GeneratedTokenRoundTrip(codec, versions, userDetails, issuedAt, expiration, now);
    GeneratedTokenValidates(codec, versions, userDetails, issuedAt, expiration, now);
  }

  /** After the user's version is bumped (a logout with any of the user's
      tokens), a token issued before the bump is refused with "Invalid token
      version" even though it is not itself revoked and has not expired. */
  lemma StaleTokenRefused(
    codec: Codec, blacklist: map<string, Instant>, versions: map<string, int>,
    users: map<string, UserDetails>, userDetails: UserDetails,
    issuedAt: Instant, expiration: nat, now: Instant)
    requires Sound(codec)
    requires VersionsPositive(versions)
    requires userDetails.username in users && users[userDetails.username] == userDetails
    requires now <= TokenExpiry(issuedAt, expiration)
    requires GenerateToken(codec, versions, userDetails, issuedAt, expiration) !in RemoveExpired(blacklist, now)
    ensures Filter(codec, blacklist, Bumped(versions, userDetails.username), users,
                   Some(BEARER_PREFIX + GenerateToken(codec, versions, userDetails, issuedAt, expiration)), None, now)
         == FilterResult(SendError(SC_UNAUTHORIZED, INVALID_TOKEN_VERSION), None)
  {
    var token := GenerateToken(codec, versions, userDetails, issuedAt, expiration);
    BearerTokenRoundTrip(token);
    GeneratedTokenRoundTrip(codec, versions, userDetails, issuedAt, expiration, now);
    GeneratedTokenValidates(codec, versions, userDetails, issuedAt, expiration, now);
    BumpedVersion(versions, userDetails.username);
    VersionChangeInvalidates(codec, versions, Bumped(versions, userDetails.username), token, userDetails, now, now);
  }

  /** A token revoked until its own expiry never authenticates again: while
      it has not expired it is refused as revoked, afterwards the parser
      refuses it as expired. */
  lemma RevokedTokenNeverAuthenticates(
    codec: Codec, blacklist: map<string, Instant>, versions: map<string, int>,
    users: map<string, UserDetails>, token: string, existing: Option<Authentication>, now: Instant)
    requires codec.verify(token).Some?
    requires token in blacklist && blacklist[token] == ExpirationDate(codec.verify(token).value)
    ensures Filter(codec, blacklist, versions, users, Some(BEARER_PREFIX + token), existing, now).outcome.SendError?
  {
    BearerTokenRoundTrip(token);
  }
}
