/** The gate of auth-service/internal/middleware/jwt_auth.go in front of the protected routes. */
module JwtAuthGate {
  import opened Results
  import opened Model
  import opened Gin
  import opened GoStrings
  import opened Service

  const MissingCredentials := "Authorization header or cookie required"
  const BadHeaderFormat := "Authorization header format must be Bearer {token}"

  /** `strings.Split(h, " ")` must give exactly `["Bearer", token]`. */
  function BearerFromHeader(authHeader: string): Option<string>
  {
    var parts := Split(authHeader, ' ');
    if |parts| != 2 || parts[0] != "Bearer" then None else Some(parts[1])
  }

  /** The split rule accepts exactly "Bearer ", one space, then a token without spaces. */
  lemma BearerFromHeaderExactly(authHeader: string, token: string)
    ensures BearerFromHeader(authHeader) == Some(token) <==> authHeader == "Bearer " + token && ' ' !in token
  {
    var parts := Split(authHeader, ' ');
    if BearerFromHeader(authHeader) == Some(token) {
      assert Join(parts[1..], ' ') == parts[1];
      assert authHeader == "Bearer" + [' '] + token;
    }
    if authHeader == "Bearer " + token && ' ' !in token {
      assert authHeader == "Bearer" + [' '] + token;
      SplitAfterHead("Bearer", token, ' ');
      SplitWithoutSeparator(token, ' ');
    }
  }

  /** The header is accepted iff it is "Bearer " followed by a space-free (possibly empty) token. */
  predicate BearerShaped(authHeader: string)
  {
    HasPrefix(authHeader, "Bearer ") && ' ' !in authHeader[7..]
  }

  /**
   * Where the token comes from: the `jwt` cookie when there is one (the header is then
   * ignored), otherwise the `Authorization` header under the split rule.
   */
  function SelectToken(cookie: Option<string>, authHeader: string): (r: Result<string, Outcome>)
    ensures cookie.Some? ==> r == Ok(cookie.value)
    ensures cookie.None? && authHeader == "" ==> r == Err(Abort(StatusUnauthorized, MissingCredentials))
    ensures cookie.None? && authHeader != "" ==> (r.Ok? <==> BearerShaped(authHeader))
    ensures cookie.None? && r.Ok? ==> authHeader == "Bearer " + r.value && ' ' !in r.value
    ensures cookie.None? && authHeader != "" && r.Err? ==> r == Err(Abort(StatusUnauthorized, BadHeaderFormat))
  {
    if cookie.Some? then Ok(cookie.value)
    else if authHeader == "" then Err(Abort(StatusUnauthorized, MissingCredentials))
    else
      match BearerFromHeader(authHeader)
      case None =>
        assert !BearerShaped(authHeader) by {
          if BearerShaped(authHeader) {
            assert authHeader == "Bearer " + authHeader[7..];
            BearerFromHeaderExactly(authHeader, authHeader[7..]);
          }
        }
        Err(Abort(StatusUnauthorized, BadHeaderFormat))
      case Some(token) =>
        BearerFromHeaderExactly(authHeader, token);
        assert authHeader[7..] == token;
        Ok(token)
  }

  /** Header values the split rule refuses: no token, an inner space, a double space. */
  lemma SplitRuleRejects()
    ensures SelectToken(None, "Bearer") == Err(Abort(StatusUnauthorized, BadHeaderFormat))
    ensures SelectToken(None, "Bearer a b") == Err(Abort(StatusUnauthorized, BadHeaderFormat))
    ensures SelectToken(None, "Bearer  a") == Err(Abort(StatusUnauthorized, BadHeaderFormat))
  {
    assert !BearerShaped("Bearer");
    assert "Bearer a b"[7..][1] == ' ';
    assert "Bearer  a"[7..][0] == ' ';
  }

  class JwtAuthMiddleware {
    const authService: AuthService

    constructor (authService: AuthService)
      ensures this.authService == authService
    {
      this.authService := authService;
    }

    /**
     * `Middleware()`: a selected token that the service refuses aborts with 401 and the
     * service's error; only an accepted token continues, with its claims under "jwtClaims".
     */
    function Middleware(cookie: Option<string>, authHeader: string, now: int): (o: Outcome)
      reads authService
      ensures SelectToken(cookie, authHeader).Err? ==> o == SelectToken(cookie, authHeader).error
      ensures SelectToken(cookie, authHeader).Ok? && authService.ValidateToken(SelectToken(cookie, authHeader).value, now).Err? ==>
                o == Abort(StatusUnauthorized, Message(authService.ValidateToken(SelectToken(cookie, authHeader).value, now).error))
      ensures o.Next? <==> SelectToken(cookie, authHeader).Ok? && authService.ValidateToken(SelectToken(cookie, authHeader).value, now).Ok?
      ensures o.Next? ==>
                o.stored == map["jwtClaims" := JwtClaimsValue(authService.ValidateToken(SelectToken(cookie, authHeader).value, now).value)]
      ensures o.Abort? ==> o.status == StatusUnauthorized
      ensures cookie.Some? && authService.IsRevoked(cookie.value, now) ==> o == Abort(StatusUnauthorized, "token has been revoked")
    {
      match SelectToken(cookie, authHeader)
      case Err(abort) => abort
      case Ok(token) =>
        match authService.ValidateToken(token, now)
        case Err(e) => Abort(StatusUnauthorized, Message(e))
        case Ok(claims) => Next(map["jwtClaims" := JwtClaimsValue(claims)])
    }
  }
}
