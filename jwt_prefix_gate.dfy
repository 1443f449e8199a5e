/**
 * The older gate of auth-service/internal/middleware/jwt.go: a prefix test on the header
 * and a parse whose key function hands out the secret whatever the token declares.
 */
module JwtPrefixGate {
  import opened Results
  import opened Model
  import opened Jwt
  import opened Gin
  import opened GoStrings
  import JwtAuthGate
  import Service

  const MissingOrInvalid := "missing or invalid token"
  const InvalidOrExpired := "invalid or expired token"

  /** The header must be non-empty and start with "Bearer "; that prefix is trimmed once. */
  function BearerByPrefix(authHeader: string): Option<string>
  {
    if authHeader == "" || !HasPrefix(authHeader, "Bearer ") then None
    else Some(TrimPrefix(authHeader, "Bearer "))
  }

  /** The prefix rule accepts every "Bearer " + t, spaces in t included. */
  lemma BearerByPrefixExactly(authHeader: string, token: string)
    ensures BearerByPrefix(authHeader) == Some(token) <==> authHeader == "Bearer " + token
  {
    if authHeader == "Bearer " + token {
      assert authHeader[..7] == "Bearer ";
      assert authHeader[7..] == token;
    }
  }

  /** Whatever the split rule of jwt_auth.go accepts, the prefix rule accepts to the same token. */
  lemma SplitRuleImpliesPrefixRule(authHeader: string)
    ensures JwtAuthGate.BearerFromHeader(authHeader).Some? ==>
              BearerByPrefix(authHeader) == JwtAuthGate.BearerFromHeader(authHeader)
  {
    if JwtAuthGate.BearerFromHeader(authHeader).Some? {
      var t := JwtAuthGate.BearerFromHeader(authHeader).value;
      JwtAuthGate.BearerFromHeaderExactly(authHeader, t);
      BearerByPrefixExactly(authHeader, t);
    }
  }

  /** ... and not conversely: an inner space passes here and fails there. */
  lemma PrefixRuleAcceptsInnerSpace()
    ensures BearerByPrefix("Bearer a b") == Some("a b")
    ensures JwtAuthGate.BearerFromHeader("Bearer a b") == None
  {
    BearerByPrefixExactly("Bearer a b", "a b");
    JwtAuthGate.BearerFromHeaderExactly("Bearer a b", "a b");
    assert "a b"[1] == ' ';
  }

  /**
   * `JWTAuth(secret)`: a header that fails the prefix rule, a parse error and an invalid
   * token all abort with 401; a parsed valid token continues with its claims under
   * "claims". No check of the signing method takes place.
   */
  function JwtAuth(lib: Library, secret: string, authHeader: string, now: int): (o: Outcome)
    ensures BearerByPrefix(authHeader).None? ==> o == Abort(StatusUnauthorized, MissingOrInvalid)
    ensures BearerByPrefix(authHeader).Some? ==>
              var t := BearerByPrefix(authHeader).value;
              && (o.Next? <==> lib.decodeHeader(t).Ok? && lib.verify(t, secret, now).Ok? && lib.verify(t, secret, now).value.valid)
              && (o.Next? ==> o.stored == map["claims" := MapClaimsValue(lib.verify(t, secret, now).value.claims)])
              && (o.Abort? ==> o == Abort(StatusUnauthorized, InvalidOrExpired))
  {
    match BearerByPrefix(authHeader)
    case None => Abort(StatusUnauthorized, MissingOrInvalid)
    case Some(tokenStr) =>
      match ParseWithClaims(lib, tokenStr, _ => Ok(secret), now)
      case Err(_) => Abort(StatusUnauthorized, InvalidOrExpired)
      case Ok(token) =>
        if !token.valid then Abort(StatusUnauthorized, InvalidOrExpired)
        else Next(map["claims" := MapClaimsValue(token.claims)])
  }

  /**
   * A token that declares a non-HMAC method but verifies under the shared secret passes
   * this gate while the service's ValidateToken refuses it.
   */
  lemma NoAlgorithmPinning(s: Service.AuthService, token: string, now: int)
    requires s.lib.decodeHeader(token).Ok? && s.lib.decodeHeader(token).value.family != HMAC
    requires s.lib.verify(token, s.jwtSecret, now).Ok? && s.lib.verify(token, s.jwtSecret, now).value.valid
    ensures JwtAuth(s.lib, s.jwtSecret, "Bearer " + token, now).Next?
    ensures s.VerifyToken(token, now).Err? && s.ValidateToken(token, now).Err?
  {
    BearerByPrefixExactly("Bearer " + token, token);
  }
}
