/** Login (authenticate, set the context, issue a token, assemble the
    response) and logout (check the header, revoke the token and bump the
    user's version, clear the context). */
module AuthService {
  import opened Basics
  import opened TokenBlacklist
  import opened SpringSecurity
  import opened JwtToken
  import JwtRequestFilter

  // ---------------------------------------------------------------------
  // Login

  /** `AuthResponseDto`. */
  datatype AuthResponseDto = AuthResponseDto(
    token: string, tokenType: string, username: string,
    name: string, email: string, roles: seq<string>)

  /** The name and email of the person linked to a user. */
  datatype PersonProfile = PersonProfile(name: string, email: string)

  /** The authentication manager refused the credentials, or no person is
      linked to the authenticated user ("User not found"). */
  datatype LoginError = AuthenticationFailed | UserNotFound

  /** The response `login` assembles for an authenticated user, with the
      person repository seen as a map from a user's username to its person. */
  function LoginResponse(
    codec: Codec, versions: map<string, int>, userDetails: UserDetails,
    personsByUsername: map<string, PersonProfile>, now: Instant, expiration: nat)
    : (r: Result<AuthResponseDto, LoginError>)
    ensures userDetails.username !in personsByUsername <==> r == Err(UserNotFound)
    ensures r.Ok? ==>
      && r.value.token == GenerateToken(codec, versions, userDetails, now, expiration)
      && r.value.tokenType == "Bearer"
      && r.value.username == userDetails.username
      && r.value.name == personsByUsername[userDetails.username].name
      && r.value.email == personsByUsername[userDetails.username].email
      && r.value.roles == userDetails.authorities
  {
    var jwt := GenerateToken(codec, versions, userDetails, now, expiration);
    if userDetails.username !in personsByUsername then Err(UserNotFound)
    else
      var person := personsByUsername[userDetails.username];
      Ok(AuthResponseDto(jwt, "Bearer", userDetails.username, person.name, person.email, userDetails.authorities))
  }

  /** `login`. `authenticated` is the authentication manager's verdict on
      the request's credentials: the loaded user, or none when it throws.
      The context is set before the person lookup, so it stays set when
      that lookup fails. */
  method Login(
    codec: Codec, storage: TokenBlacklistStorage, context: SecurityContext,
    authenticated: Option<UserDetails>, personsByUsername: map<string, PersonProfile>,
    now: Instant, expiration: nat)
    returns (r: Result<AuthResponseDto, LoginError>)
    modifies context
    ensures authenticated.None? ==> r == Err(AuthenticationFailed) && context.authentication == old(context.authentication)
    ensures authenticated.Some? ==>
      && context.authentication == Some(Authentication(authenticated.value, authenticated.value.authorities))
      && r == LoginResponse(codec, storage.userTokenVersions, authenticated.value, personsByUsername, now, expiration)
  {
    if authenticated.None? {
      r := Err(AuthenticationFailed);
      return;
    }
    var userDetails := authenticated.value;
    context.authentication := Some(Authentication(userDetails, userDetails.authorities));
    r := LoginResponse(codec, storage.userTokenVersions, userDetails, personsByUsername, now, expiration);
  }

  // ---------------------------------------------------------------------
  // Logout

  datatype InvalidTokenCause =
    | AlreadyInvalidated   // thrown at the blacklist check
    | NullUsername         // ConcurrentHashMap.compute with a null key

  /** What `logout` throws. A parse failure of the subject lookup, which is
      outside the try block, propagates as the library's own exception. */
  datatype LogoutError =
    | InvalidAuthorizationHeader
    | TokenRejected(reason: TokenError)
    | InvalidToken(cause: InvalidTokenCause)

  /** The message of the `IllegalArgumentException` logout throws; inside
      the try block the message is rewrapped behind "Invalid token: ". */
  function LogoutMessage(e: LogoutError): (message: string)
    requires !e.TokenRejected?
    ensures e.InvalidToken? ==> StartsWith(message, "Invalid token: ")
  {
    match e
    case InvalidAuthorizationHeader => "Invalid authorization header"
    case InvalidToken(AlreadyInvalidated) => "Invalid token: " + "Token has already been invalidated"
    case InvalidToken(NullUsername) => "Invalid token: " + "null"
  }

  /** The outcome of `logout` from the revoked-token map it reads. A
      logout succeeds exactly for a bearer token that parses, is not yet
      revoked and names a subject; a token that does not parse is refused
      with the library's error before the revoked tokens are consulted. */
  function LogoutResult(codec: Codec, blacklist: map<string, Instant>, authHeader: Option<string>, now: Instant)
    : (r: Outcome<LogoutError>)
    ensures r == Pass <==>
      && BearerToken(authHeader).Some?
      && GetClaimsFromToken(codec, BearerToken(authHeader).value, now).Ok?
      && BearerToken(authHeader).value !in RemoveExpired(blacklist, now)
      && codec.verify(BearerToken(authHeader).value).value.subject.Some?
    ensures BearerToken(authHeader).Some? && GetClaimsFromToken(codec, BearerToken(authHeader).value, now).Err? ==>
      r == Fail(TokenRejected(GetClaimsFromToken(codec, BearerToken(authHeader).value, now).error))
  {
    match BearerToken(authHeader)
    case None => Fail(InvalidAuthorizationHeader)
    case Some(token) =>
      match GetUsernameFromToken(codec, token, now)
      case Err(e) => Fail(TokenRejected(e))
      case Ok(username) =>
        if token in RemoveExpired(blacklist, now) then Fail(InvalidToken(AlreadyInvalidated))
        else if username.None? then Fail(InvalidToken(NullUsername))
        else Pass
  }

  /** `logout`. On success the token is recorded with its own expiry, the
      version of the token's own subject is bumped and the context cleared. */
  method Logout(codec: Codec, storage: TokenBlacklistStorage, context: SecurityContext, authHeader: Option<string>, now: Instant)
    returns (result: Outcome<LogoutError>)
    requires storage.Valid()
    modifies storage, context
    ensures storage.Valid()
    ensures result == LogoutResult(codec, old(storage.blacklistedTokens), authHeader, now)
    ensures NeverDecreased(old(storage.userTokenVersions), storage.userTokenVersions)
    ensures result.Fail? ==> context.authentication == old(context.authentication)
    ensures result.Fail? ==> storage.userTokenVersions == old(storage.userTokenVersions)
    ensures result.Fail? && !result.error.InvalidToken? ==> storage.blacklistedTokens == old(storage.blacklistedTokens)
    ensures result == Fail(InvalidToken(AlreadyInvalidated)) ==>
      storage.blacklistedTokens == RemoveExpired(old(storage.blacklistedTokens), now)
    ensures result == Fail(InvalidToken(NullUsername)) ==>
      var token := BearerToken(authHeader).value;
      storage.blacklistedTokens == RemoveExpired(old(storage.blacklistedTokens), now)[token := ExpirationDate(codec.verify(token).value)]
    ensures result == Pass ==>
      var token := BearerToken(authHeader).value;
      var claims := codec.verify(token).value;
      && storage.blacklistedTokens == RemoveExpired(old(storage.blacklistedTokens)[token := ExpirationDate(claims)], now)
      && storage.userTokenVersions == Bumped(old(storage.userTokenVersions), claims.subject.value)
      && context.authentication == None
  {
    var bearer := BearerToken(authHeader);
    if bearer.None? {
      result := Fail(InvalidAuthorizationHeader);
      return;
    }
    var token := bearer.value;
    var username := GetUsernameFromToken(codec, token, now);
    if username.Err? {
      result := Fail(TokenRejected(username.error));
      return;
    }
    // From here on, a failure is one whose message `LogoutMessage` rewraps.
    var revoked := storage.IsBlacklisted(token, now);
    if revoked {
      result := Fail(InvalidToken(AlreadyInvalidated));
      return;
    }
    var expiryDate := GetExpirationDateFromToken(codec, token, now);
    assert expiryDate.Ok?;  // the same parse at the same instant already succeeded
    var ok := storage.BlacklistToken(token, username.value, expiryDate.value, now);
    if !ok {
      result := Fail(InvalidToken(NullUsername));
      return;
    }
    PurgeInsertPurge(old(storage.blacklistedTokens), token, expiryDate.value, now);
    context.authentication := None;
    result := Pass;
  }

  // ---------------------------------------------------------------------
  // Properties of logout

  /** Logout refuses a missing header and one without the case-sensitive
      "Bearer " prefix, whatever the token. */
  lemma LogoutNeedsBearerHeader(codec: Codec, blacklist: map<string, Instant>, authHeader: Option<string>, now: Instant)
    requires authHeader.None? || !StartsWith(authHeader.value, BEARER_PREFIX)
    ensures LogoutResult(codec, blacklist, authHeader, now) == Fail(InvalidAuthorizationHeader)
  {
  }

  /** Logging out a second time with the same header fails: as already
      invalidated while the token lives, as the library's expired-token
      error afterwards. (The version is then left alone: see `Logout`.) */
  lemma SecondLogoutFails(codec: Codec, blacklist: map<string, Instant>, authHeader: Option<string>, now: Instant, later: Instant)
    requires LogoutResult(codec, blacklist, authHeader, now) == Pass
    requires now <= later
    ensures var token := BearerToken(authHeader).value;
      var afterwards := RemoveExpired(blacklist[token := ExpirationDate(codec.verify(token).value)], now);
      && LogoutResult(codec, afterwards, authHeader, later).Fail?
      && (later <= ExpirationDate(codec.verify(token).value) ==>
            LogoutResult(codec, afterwards, authHeader, later) == Fail(InvalidToken(AlreadyInvalidated)))
      && (ExpirationDate(codec.verify(token).value) < later ==>
            LogoutResult(codec, afterwards, authHeader, later) == Fail(TokenRejected(ExpiredJwt)))
  {
    var token := BearerToken(authHeader).value;
    var expiry := ExpirationDate(codec.verify(token).value);
    var afterwards := RemoveExpired(blacklist[token := expiry], now);
    assert now <= expiry;
    assert token in afterwards && afterwards[token] == expiry;
  }

  /** A logout with one of a user's tokens makes every other token issued
      to that user before it fail at the request filter with "Invalid token
      version", though none of them is in the blacklist. */
  lemma LogoutRevokesEveryOlderToken(
    codec: Codec, blacklist: map<string, Instant>, versions: map<string, int>,
    users: map<string, UserDetails>, userDetails: UserDetails,
    authHeader: Option<string>, issuedAt: Instant, expiration: nat, now: Instant, later: Instant)
    requires Sound(codec)
    requires VersionsPositive(versions)
    requires userDetails.username in users && users[userDetails.username] == userDetails
    requires LogoutResult(codec, blacklist, authHeader, now) == Pass
    requires codec.verify(BearerToken(authHeader).value).value.subject == Some(userDetails.username)
    requires now <= later <= TokenExpiry(issuedAt, expiration)
    requires GenerateToken(codec, versions, userDetails, issuedAt, expiration) != BearerToken(authHeader).value
    requires GenerateToken(codec, versions, userDetails, issuedAt, expiration) !in RemoveExpired(blacklist, later)
    ensures var token := BearerToken(authHeader).value;
      var blacklistAfter := RemoveExpired(blacklist[token := ExpirationDate(codec.verify(token).value)], now);
      JwtRequestFilter.Filter(codec, blacklistAfter, Bumped(versions, userDetails.username), users,
        Some(BEARER_PREFIX + GenerateToken(codec, versions, userDetails, issuedAt, expiration)), None, later)
      == JwtRequestFilter.FilterResult(JwtRequestFilter.SendError(JwtRequestFilter.SC_UNAUTHORIZED, JwtRequestFilter.INVALID_TOKEN_VERSION), None)
  {
    var token := BearerToken(authHeader).value;
    var other := GenerateToken(codec, versions, userDetails, issuedAt, expiration);
    var blacklistAfter := RemoveExpired(blacklist[token := ExpirationDate(codec.verify(token).value)], now);
    assert other !in RemoveExpired(blacklistAfter, later);
    JwtRequestFilter.StaleTokenRefused(codec, blacklistAfter, versions, users, userDetails, issuedAt, expiration, later);
  }

  /** The revocation scenario run through the methods themselves: a user
      logs out with a fresh token; the same token is then refused as
      revoked, and an older token of the same user as a stale version. */
  method RevocationScenario(
    codec: Codec, storage: TokenBlacklistStorage, context: SecurityContext,
    users: map<string, UserDetails>, userDetails: UserDetails,
    olderToken: string, issuedAt: Instant, expiration: nat)
    returns (logout: Outcome<LogoutError>, sameToken: JwtRequestFilter.FilterOutcome, older: JwtRequestFilter.FilterOutcome)
    requires Sound(codec) && storage.Valid()
    requires userDetails.username in users && users[userDetails.username] == userDetails
    requires expiration >= 1
    requires GenerateToken(codec, storage.userTokenVersions, userDetails, issuedAt, expiration) !in storage.blacklistedTokens
    requires ValidateToken(codec, storage.userTokenVersions, olderToken, userDetails, issuedAt)
    requires olderToken !in storage.blacklistedTokens
    requires olderToken != GenerateToken(codec, storage.userTokenVersions, userDetails, issuedAt, expiration)
    modifies storage, context
    ensures logout == Pass
    ensures sameToken == JwtRequestFilter.SendError(JwtRequestFilter.SC_UNAUTHORIZED, JwtRequestFilter.TOKEN_REVOKED)
    ensures older == JwtRequestFilter.SendError(JwtRequestFilter.SC_UNAUTHORIZED, JwtRequestFilter.INVALID_TOKEN_VERSION)
  {
    var token := GenerateToken(codec, storage.userTokenVersions, userDetails, issuedAt, expiration);
    ghost var versions := storage.userTokenVersions;
    TokenExpiryBounds(issuedAt, expiration);
    GeneratedTokenRoundTrip(codec, versions, userDetails, issuedAt, expiration, issuedAt);
    BearerTokenRoundTrip(token);
    logout := Logout(codec, storage, context, Some(BEARER_PREFIX + token), issuedAt);
    assert storage.userTokenVersions == Bumped(versions, userDetails.username);
    sameToken := JwtRequestFilter.DoFilterInternal(codec, storage, context, users, Some(BEARER_PREFIX + token), issuedAt);
    BearerTokenRoundTrip(olderToken);
    BumpedVersion(versions, userDetails.username);
    VersionChangeInvalidates(codec, versions, storage.userTokenVersions, olderToken, userDetails, issuedAt, issuedAt);
    older := JwtRequestFilter.DoFilterInternal(codec, storage, context, users, Some(BEARER_PREFIX + olderToken), issuedAt);
  }
}
