/** Issuing and checking the application's bearer tokens. A token is a JSON
    Web Token (RFC 7519) signed with HMAC-SHA-512 (section 3.2 of RFC 7518).
    Signing and the signature check are opaque: a `Codec` pairs the signer
    with a parser that may fail. Dates in the claims are NumericDate values,
    whole seconds since the epoch (section 2 of RFC 7519). */
module JwtToken {
  import opened Basics
  import opened TokenBlacklist
  import opened SpringSecurity

  /** The claims the application writes: `sub` (section 4.1.2 of RFC 7519),
      the `roles` list, the `tokenVersion` counter, `iat` (section 4.1.6 of
      RFC 7519) and `exp` (section 4.1.4 of RFC 7519). A claim that a parsed
      token lacks is `None`. */
  datatype Claims = Claims(
    subject: Option<string>,
    roles: seq<string>,
    tokenVersion: Option<int>,
    issuedAt: nat,
    expiration: nat)

  /** The signing serialiser and the signature-checking parser of the JWT
      library, both keyed with the configured secret. */
  datatype Codec = Codec(sign: Claims -> string, verify: string -> Option<Claims>)

  /** A token signed with the secret parses back to the claims it carries. */
  ghost predicate Sound(codec: Codec) {
    forall c :: codec.verify(codec.sign(c)) == Some(c)
  }

  /** The exceptions `parseClaimsJws` throws: a bad signature or a
      malformed token, and an expired one (`ExpiredJwtException`). */
  datatype TokenError = InvalidSignatureOrFormat | ExpiredJwt

  /** `new Date(ms)` written into a claim: a NumericDate in whole seconds. */
  function ToNumericDate(t: Instant): nat {
    t / 1000
  }

  /** The `Date` a NumericDate claim reads back as. */
  function ExpirationDate(claims: Claims): Instant {
    claims.expiration * 1000
  }

  /** `getClaimsFromToken`: the library checks the signature, then rejects
      a token whose expiry is strictly before the current instant. */
  function GetClaimsFromToken(codec: Codec, token: string, now: Instant): (r: Result<Claims, TokenError>)
    ensures r.Ok? <==> codec.verify(token).Some? && now <= ExpirationDate(codec.verify(token).value)
    ensures r.Ok? ==> codec.verify(token) == Some(r.value)
    ensures codec.verify(token).None? ==> r == Err(InvalidSignatureOrFormat)
    ensures codec.verify(token).Some? && ExpirationDate(codec.verify(token).value) < now ==> r == Err(ExpiredJwt)
  {
    match codec.verify(token)
    case None => Err(InvalidSignatureOrFormat)
    case Some(claims) => if ExpirationDate(claims) < now then Err(ExpiredJwt) else Ok(claims)
  }

  /** The claims `generateToken` builds for a user at instant `now`, with
      the token lifetime `expiration` in seconds. */
  function GeneratedClaims(versions: map<string, int>, userDetails: UserDetails, now: Instant, expiration: nat): (c: Claims)
    ensures c.subject == Some(userDetails.username) && c.roles == userDetails.authorities
    ensures c.tokenVersion == Some(VersionOf(versions, userDetails.username))
    ensures c.issuedAt * 1000 <= now < c.issuedAt * 1000 + 1000
    ensures ExpirationDate(c) <= now + expiration * 1000 < ExpirationDate(c) + 1000
  {
    Claims(
      Some(userDetails.username),
      userDetails.authorities,
      Some(VersionOf(versions, userDetails.username)),
      ToNumericDate(now),
      ToNumericDate(now + expiration * 1000))
  }

  /** `generateToken`; `versions` is the blacklist storage's version map at
      the time of the call. */
  function GenerateToken(codec: Codec, versions: map<string, int>, userDetails: UserDetails, now: Instant, expiration: nat): (token: string)
    ensures Sound(codec) ==> codec.verify(token) == Some(GeneratedClaims(versions, userDetails, now, expiration))
  {
    codec.sign(GeneratedClaims(versions, userDetails, now, expiration))
  }

  /** `getUsernameFromToken`: the subject of a token that parses. */
  function GetUsernameFromToken(codec: Codec, token: string, now: Instant): (r: Result<Option<string>, TokenError>)
    ensures r.Ok? <==> GetClaimsFromToken(codec, token, now).Ok?
    ensures r.Ok? ==> r.value == codec.verify(token).value.subject
    ensures r.Err? ==> r.error == GetClaimsFromToken(codec, token, now).error
  {
    match GetClaimsFromToken(codec, token, now)
    case Err(e) => Err(e)
    case Ok(claims) => Ok(claims.subject)
  }

  /** `getExpirationDateFromToken`: the expiry of a token that parses,
      which is then never before `now`. */
  function GetExpirationDateFromToken(codec: Codec, token: string, now: Instant): (r: Result<Instant, TokenError>)
    ensures r.Ok? <==> GetClaimsFromToken(codec, token, now).Ok?
    ensures r.Ok? ==> r.value == ExpirationDate(codec.verify(token).value) && now <= r.value
    ensures r.Err? ==> r.error == GetClaimsFromToken(codec, token, now).error
  {
    match GetClaimsFromToken(codec, token, now)
    case Err(e) => Err(e)
    case Ok(claims) => Ok(ExpirationDate(claims))
  }

  /** `isTokenExpired`: parses again, then compares the expiry with now. */
  function IsTokenExpired(codec: Codec, token: string, now: Instant): (r: Result<bool, TokenError>)
    ensures r.Ok? <==> GetClaimsFromToken(codec, token, now).Ok?
    ensures r.Err? ==> r.error == GetClaimsFromToken(codec, token, now).error
    ensures r.Ok? ==> codec.verify(token).Some? && (r.value <==> ExpirationDate(codec.verify(token).value) < now)
  {
    match GetClaimsFromToken(codec, token, now)
    case Err(e) => Err(e)
    case Ok(claims) => Ok(ExpirationDate(claims) < now)
  }

  /** `validateToken`: every exception (a failed parse, the null subject
      handed to the version map) is caught and yields false. True exactly
      when the token parses, names the user as its subject, is not expired
      and carries a version claim equal to the user's current version. */
  function ValidateToken(codec: Codec, versions: map<string, int>, token: string, userDetails: UserDetails, now: Instant): (valid: bool)
    ensures valid <==>
      && codec.verify(token).Some?
      && codec.verify(token).value.subject == Some(userDetails.username)
      && now <= ExpirationDate(codec.verify(token).value)
      && codec.verify(token).value.tokenVersion.Some?
      && codec.verify(token).value.tokenVersion.value == VersionOf(versions, userDetails.username)
  {
    match GetClaimsFromToken(codec, token, now)
    case Err(_) => false
    case Ok(claims) =>
      match claims.subject
      case None => false
      case Some(username) =>
        var tokenVersion := claims.tokenVersion;
        var currentVersion := VersionOf(versions, username);
        && username == userDetails.username
        && (match IsTokenExpired(codec, token, now)
            case Err(_) => false
            case Ok(expired) => !expired)
        && tokenVersion.Some?
        && tokenVersion.value == currentVersion
  }

  // ---------------------------------------------------------------------
  // Properties

  /** The instant a token issued at `now` with lifetime `expiration`
      expires at, once its `exp` claim has been written in whole seconds. */
  function TokenExpiry(now: Instant, expiration: nat): Instant {
    ToNumericDate(now + expiration * 1000) * 1000
  }

  /** The written expiry is the intended one truncated to the second; a
      token with a lifetime of at least one second is valid when issued. */
  lemma TokenExpiryBounds(now: Instant, expiration: nat)
    ensures TokenExpiry(now, expiration) <= now + expiration * 1000 < TokenExpiry(now, expiration) + 1000
    ensures expiration >= 1 ==> now < TokenExpiry(now, expiration)
  {
    var intended := now + expiration * 1000;
    assert intended == (intended / 1000) * 1000 + intended % 1000;
  }

  /** Parsing a freshly generated token, at any instant up to its expiry,
      gives back its subject (the username), its roles and version claim and
      the (second-truncated) expiry it was built with. */
  lemma GeneratedTokenRoundTrip(codec: Codec, versions: map<string, int>, userDetails: UserDetails, issuedAt: Instant, expiration: nat, now: Instant)
    requires Sound(codec)
    requires now <= TokenExpiry(issuedAt, expiration)
    ensures GetClaimsFromToken(codec, GenerateToken(codec, versions, userDetails, issuedAt, expiration), now)
         == Ok(GeneratedClaims(versions, userDetails, issuedAt, expiration))
    ensures GetUsernameFromToken(codec, GenerateToken(codec, versions, userDetails, issuedAt, expiration), now)
         == Ok(Some(userDetails.username))
    ensures GetExpirationDateFromToken(codec, GenerateToken(codec, versions, userDetails, issuedAt, expiration), now)
         == Ok(TokenExpiry(issuedAt, expiration))
  {
    var claims := GeneratedClaims(versions, userDetails, issuedAt, expiration);
    assert codec.verify(codec.sign(claims)) == Some(claims);
  }

  /** After the library's own expiry check, `isTokenExpired` (read at the
      same instant) can never report true: the conjunct is redundant. */
  lemma IsTokenExpiredNeverTrue(codec: Codec, token: string, now: Instant)
    ensures IsTokenExpired(codec, token, now) != Ok(true)
  {
  }

  /** A freshly generated token validates for its user until it expires. */
  lemma GeneratedTokenValidates(codec: Codec, versions: map<string, int>, userDetails: UserDetails, issuedAt: Instant, expiration: nat, now: Instant)
    requires Sound(codec)
    requires now <= TokenExpiry(issuedAt, expiration)
    ensures ValidateToken(codec, versions, GenerateToken(codec, versions, userDetails, issuedAt, expiration), userDetails, now)
  {
    GeneratedTokenRoundTrip(codec, versions, userDetails, issuedAt, expiration, now);
  }

  /** Once the user's version has moved on, no token that was valid before
      is valid again, at any instant, whether or not the token itself is in
      the blacklist. */
  lemma VersionChangeInvalidates(codec: Codec, versions: map<string, int>, later: map<string, int>, token: string, userDetails: UserDetails, now: Instant, afterwards: Instant)
    requires ValidateToken(codec, versions, token, userDetails, now)
    requires VersionOf(later, userDetails.username) != VersionOf(versions, userDetails.username)
    ensures !ValidateToken(codec, later, token, userDetails, afterwards)
  {
  }

  /** One revocation for a user (one bump of the version) invalidates every
      token issued to that user before it, while a token issued after it
      validates until it expires. */
  lemma RevocationInvalidatesOlderTokens(
    codec: Codec, versions: map<string, int>, userDetails: UserDetails,
    oldToken: string, issuedAt: Instant, expiration: nat, now: Instant)
    requires Sound(codec)
    requires VersionsPositive(versions)
    requires ValidateToken(codec, versions, oldToken, userDetails, issuedAt)
    requires now <= TokenExpiry(issuedAt, expiration)
    ensures !ValidateToken(codec, Bumped(versions, userDetails.username), oldToken, userDetails, now)
    ensures ValidateToken(codec, Bumped(versions, userDetails.username),
              GenerateToken(codec, Bumped(versions, userDetails.username), userDetails, issuedAt, expiration), userDetails, now)
  {
    BumpedVersion(versions, userDetails.username);
    VersionChangeInvalidates(codec, versions, Bumped(versions, userDetails.username), oldToken, userDetails, issuedAt, now);
    GeneratedTokenValidates(codec, Bumped(versions, userDetails.username), userDetails, issuedAt, expiration, now);
  }
}
