/** The framework values the authentication core reads and writes: the
    loaded user, the authentication object, the per-request security context
    (`SecurityContextHolder`, one optional authentication) and the bearer
    convention of the `Authorization` header (section 2.1 of RFC 6750). */
module SpringSecurity {
  import opened Basics

  /** What `UserDetailsService.loadUserByUsername` returns: the username,
      the password digest and the granted authority strings, in order. */
  datatype UserDetails = UserDetails(username: string, password: string, authorities: seq<string>)

  /** A `UsernamePasswordAuthenticationToken` holding a loaded user. */
  datatype Authentication = Authentication(principal: UserDetails, authorities: seq<string>)

  /** `SecurityContextHolder.getContext()` for the current request. */
  class SecurityContext {
    var authentication: Option<Authentication>

    constructor ()
      ensures authentication == None
    {
      authentication := None;
    }
  }

  const BEARER_PREFIX: string := "Bearer "

  /** The token after the seven-character prefix "Bearer ", for a header
      that is present and starts with it; none otherwise. Both the logout
      service and the request filter perform this test, and the prefix match
      is case-sensitive. */
  function BearerToken(authorizationHeader: Option<string>): (token: Option<string>)
    ensures token.Some? <==> authorizationHeader.Some? && StartsWith(authorizationHeader.value, BEARER_PREFIX)
    ensures token.Some? ==> authorizationHeader.value == BEARER_PREFIX + token.value
  {
    if authorizationHeader.None? || !StartsWith(authorizationHeader.value, BEARER_PREFIX) then None
    else
      var header := authorizationHeader.value;
      assert header == header[..7] + header[7..];
      Some(header[7..])
  }

  /** The token a client puts after the prefix is the token extracted. */
  lemma BearerTokenRoundTrip(token: string)
    ensures BearerToken(Some(BEARER_PREFIX + token)) == Some(token)
  {
    var header := BEARER_PREFIX + token;
    assert header[..|BEARER_PREFIX|] == BEARER_PREFIX;
    assert header[7..] == token;
  }

  /** A lower-case scheme name is not recognised. */
  lemma LowerCaseSchemeRejected(token: string)
    ensures BearerToken(Some("bearer " + token)) == None
  {
    var header := "bearer " + token;
    assert header[0] == 'b';
  }
}
