/**
 * The token lifecycle of auth-service/internal/service/auth_service.go: registration and
 * login issue HS256 tokens, validation checks a token against the in-memory revocation
 * map and the signing library, and logout records a token's expiry in that map.
 */
module Service {
  import opened Results
  import opened Model
  import opened Jwt
  import opened Repository
  import DecimalText

  /** The errors the service returns, each with the text `err.Error()` gives. */
  datatype AuthError =
    | InvalidRole
    | HashFailed(cause: string)
    | CreateFailed(cause: string)
    | SigningFailed(cause: string)
    | InvalidCredentials
    | Revoked
    | InvalidToken(parseError: ParseError)
    | InvalidClaims
    | InvalidIssuer
    | ProfileNotFound(cause: string)

  function Message(e: AuthError): string
  {
    match e
    case InvalidRole => "invalid role, must be 'user' or 'admin'"
    case HashFailed(c) => "failed to hash password: " + c
    case CreateFailed(c) => "failed to create user: " + c
    case SigningFailed(c) => "failed to generate token: " + c
    case InvalidCredentials => "invalid email or password"
    case Revoked => "token has been revoked"
    case InvalidToken(c) => "invalid token: " + c.detail
    case InvalidClaims => "invalid token claims"
    case InvalidIssuer => "invalid token issuer"
    case ProfileNotFound(c) => "user not found: " + c
  }

  /**
   * How Logout ends: the token was revoked, validation refused it, or the validated claims
   * had no `exp` and Go dereferences the nil `ExpiresAt` (a panic) before writing the map.
   */
  datatype LogoutResult = LoggedOut | LogoutFailed(error: AuthError) | NilExpiryPanic

  /** Register's role handling: an empty role means "user"; only "user" and "admin" pass. */
  function NormalizeRole(requested: string): (r: Result<string, AuthError>)
    ensures requested == "" ==> r == Ok("user")
    ensures requested == "user" || requested == "admin" ==> r == Ok(requested)
    ensures r.Ok? ==> r.value == "user" || r.value == "admin"
    ensures r.Err? <==> requested != "" && requested != "user" && requested != "admin"
    ensures r.Err? ==> r.error == InvalidRole
  {
    var role := if requested == "" then "user" else requested;
    if role != "user" && role != "admin" then Err(InvalidRole) else Ok(role)
  }

  class AuthService {
    const userRepo: UserRepository
    const jwtSecret: string
    const jwtIssuer: string
    /** Token lifetime in seconds. */
    const jwtExpiry: int
    /** The signing library and the password hasher the service calls. */
    const lib: Library
    const passwords: PasswordHasher
    /** Revoked token string -> the token's own expiry. */
    var tokenBlacklist: map<string, int>

    /** `NewAuthService`: the revocation map starts empty. */
    constructor (userRepo: UserRepository, jwtSecret: string, jwtIssuer: string, jwtExpiry: int,
                 lib: Library, passwords: PasswordHasher)
      ensures this.userRepo == userRepo && this.jwtSecret == jwtSecret
      ensures this.jwtIssuer == jwtIssuer && this.jwtExpiry == jwtExpiry
      ensures this.lib == lib && this.passwords == passwords
      ensures tokenBlacklist == map[]
    {
      this.userRepo := userRepo;
      this.jwtSecret := jwtSecret;
      this.jwtIssuer := jwtIssuer;
      this.jwtExpiry := jwtExpiry;
      this.lib := lib;
      this.passwords := passwords;
      tokenBlacklist := map[];
    }

    /** The claims Register and Login both build for a stored user at time `now`. */
    function IssueClaims(user: User, now: int): (c: Claims)
      ensures c.issuedAt == Some(now) && c.expiresAt == Some(now + jwtExpiry)
      ensures c.issuer == jwtIssuer
      ensures c.subject == DecimalText.IntToString(user.id) && DecimalText.ParseInt(c.subject) == Some(user.id)
      ensures c.userId == user.id && c.email == user.email && c.name == user.name && c.role == user.role
    {
      DecimalText.IntRoundTrip(user.id);
      Claims(user.id, user.email, user.name, user.role, jwtIssuer,
             DecimalText.IntToString(user.id), Some(now), Some(now + jwtExpiry))
    }

    /**
     * `Register`: the role is settled before the password is hashed or the store is
     * touched; a signing failure comes after the row is already stored.
     */
    method Register(req: RegisterRequest, now: int) returns (r: Result<Session, AuthError>)
      requires userRepo.Valid()
      modifies userRepo
      ensures userRepo.Valid()
      ensures NormalizeRole(req.role).Err? ==> r == Err(InvalidRole) && userRepo.rows == old(userRepo.rows)
      ensures NormalizeRole(req.role).Ok? && passwords.hash(req.password).Err? ==>
                r == Err(HashFailed(passwords.hash(req.password).error)) && userRepo.rows == old(userRepo.rows)
      ensures NormalizeRole(req.role).Ok? && passwords.hash(req.password).Ok? && old(userRepo.FindByEmail(req.email)).Ok? ==>
                r.Err? && r.error.CreateFailed? && userRepo.rows == old(userRepo.rows)
      ensures NormalizeRole(req.role).Ok? && passwords.hash(req.password).Ok? && old(userRepo.FindByEmail(req.email)).Err? ==>
                var u := User(|old(userRepo.rows)| + 1, req.name, req.email, passwords.hash(req.password).value,
                              NormalizeRole(req.role).value, now);
                && userRepo.rows == old(userRepo.rows) + [u]
                && (r.Ok? <==> lib.sign(IssueClaims(u, now), jwtSecret).Ok?)
                && (r.Ok? ==> r.value == Session(ResponseOf(u), lib.sign(IssueClaims(u, now), jwtSecret).value))
                && (r.Err? ==> r == Err(SigningFailed(lib.sign(IssueClaims(u, now), jwtSecret).error)))
    {
      var role := NormalizeRole(req.role);
      if role.Err? {
        return Err(role.error);
      }
      var hashed := passwords.hash(req.password);
      if hashed.Err? {
        return Err(HashFailed(hashed.error));
      }
      var user := User(0, req.name, req.email, hashed.value, role.value, now);
      var created := userRepo.CreateUser(user);
      if created.Err? {
        return Err(CreateFailed(created.error));
      }
      user := user.(id := created.value);
      var claims := IssueClaims(user, now);
      var signed := lib.sign(claims, jwtSecret);
      if signed.Err? {
        return Err(SigningFailed(signed.error));
      }
      r := Ok(Session(ResponseOf(user), signed.value));
    }

    /**
     * `Login`: an unknown email and a wrong password give the same error; only a stored
     * user with a matching password gets a token.
     */
    function Login(email: string, password: string, now: int): (r: Result<Session, AuthError>)
      reads userRepo
      ensures userRepo.FindByEmail(email).Err? ==> r == Err(InvalidCredentials)
      ensures userRepo.FindByEmail(email).Ok? && !passwords.check(password, userRepo.FindByEmail(email).value.passwordHash) ==>
                r == Err(InvalidCredentials)
      ensures r.Err? ==> r.error == InvalidCredentials || r.error.SigningFailed?
      ensures userRepo.FindByEmail(email).Ok? && passwords.check(password, userRepo.FindByEmail(email).value.passwordHash) ==>
                var signed := lib.sign(IssueClaims(userRepo.FindByEmail(email).value, now), jwtSecret);
                && (r.Ok? <==> signed.Ok?)
                && (r.Err? ==> r == Err(SigningFailed(signed.error)))
      ensures r.Ok? ==>
                var u := userRepo.FindByEmail(email).value;
                && userRepo.FindByEmail(email).Ok? && u in userRepo.rows && u.email == email
                && passwords.check(password, u.passwordHash)
                && r.value.user == ResponseOf(u)
                && lib.sign(IssueClaims(u, now), jwtSecret) == Ok(r.value.token)
    {
      match userRepo.FindByEmail(email)
      case Err(_) => Err(InvalidCredentials)
      case Ok(user) =>
        if !passwords.check(password, user.passwordHash) then Err(InvalidCredentials)
        else
          match lib.sign(IssueClaims(user, now), jwtSecret)
          case Err(e) => Err(SigningFailed(e))
          case Ok(token) => Ok(Session(ResponseOf(user), token))
    }

    /** The key function of ValidateToken: the secret is released only to HMAC tokens. */
    function HmacKey(h: Header): (r: Result<string, string>)
      ensures r.Ok? <==> h.family == HMAC
      ensures r.Ok? ==> r.value == jwtSecret
      ensures r.Err? ==> r.error == "unexpected signing method: " + h.alg
    {
      if h.family == HMAC then Ok(jwtSecret) else Err("unexpected signing method: " + h.alg)
    }

    predicate DeclaresHmac(token: string)
    {
      lib.decodeHeader(token).Ok? && lib.decodeHeader(token).value.family == HMAC
    }

    /** The stateless checks of ValidateToken, in their order: HMAC pinning, signature, issuer. */
    function VerifyToken(token: string, now: int): (r: Result<Claims, AuthError>)
      ensures r.Ok? <==>
                && DeclaresHmac(token)
                && lib.verify(token, jwtSecret, now).Ok?
                && lib.verify(token, jwtSecret, now).value.valid
                && lib.verify(token, jwtSecret, now).value.claims.issuer == jwtIssuer
      ensures r.Ok? ==> r.value == lib.verify(token, jwtSecret, now).value.claims && r.value.issuer == jwtIssuer
      ensures lib.decodeHeader(token).Err? ==> r == Err(InvalidToken(Malformed(lib.decodeHeader(token).error)))
      ensures DeclaresHmac(token) && lib.verify(token, jwtSecret, now).Err? ==>
                r == Err(InvalidToken(Rejected(lib.verify(token, jwtSecret, now).error)))
      ensures lib.decodeHeader(token).Ok? && !DeclaresHmac(token) ==>
                r == Err(InvalidToken(Unverifiable("unexpected signing method: " + lib.decodeHeader(token).value.alg)))
      ensures DeclaresHmac(token) && lib.verify(token, jwtSecret, now).Ok? && !lib.verify(token, jwtSecret, now).value.valid ==>
                r == Err(InvalidClaims)
      ensures DeclaresHmac(token) && lib.verify(token, jwtSecret, now).Ok? && lib.verify(token, jwtSecret, now).value.valid &&
              lib.verify(token, jwtSecret, now).value.claims.issuer != jwtIssuer ==>
                r == Err(InvalidIssuer)
    {
      match ParseWithClaims(lib, token, h => HmacKey(h), now)
      case Err(e) => Err(InvalidToken(e))
      case Ok(t) =>
        if !t.valid then Err(InvalidClaims)
        else if t.claims.issuer != jwtIssuer then Err(InvalidIssuer)
        else Ok(t.claims)
    }

    /** The blacklist check: an entry counts until the expiry recorded with it. */
    predicate IsRevoked(token: string, now: int)
      reads this
    {
      token in tokenBlacklist && now < tokenBlacklist[token]
    }

    /**
     * `ValidateToken`: a live revocation entry rejects before anything is parsed; otherwise
     * the answer is the stateless verifier's, so revocation can only take acceptance away.
     */
    function ValidateToken(token: string, now: int): (r: Result<Claims, AuthError>)
      reads this
      ensures IsRevoked(token, now) ==> r == Err(Revoked)
      ensures r.Ok? <==> !IsRevoked(token, now) && VerifyToken(token, now).Ok?
      ensures r.Ok? ==> r == VerifyToken(token, now) && r.value.issuer == jwtIssuer
      ensures !IsRevoked(token, now) ==> r == VerifyToken(token, now)
    {
      if IsRevoked(token, now) then Err(Revoked) else VerifyToken(token, now)
    }

    /**
     * `Logout`: revalidates the token; on success records its expiry under the token and
     * changes no other entry, so the token stays rejected until then. On failure nothing
     * changes. Entries are never removed.
     */
    method Logout(token: string, now: int) returns (r: LogoutResult)
      modifies this`tokenBlacklist
      ensures old(ValidateToken(token, now)).Err? ==>
                r == LogoutFailed(old(ValidateToken(token, now)).error) && tokenBlacklist == old(tokenBlacklist)
      ensures old(ValidateToken(token, now)).Ok? && old(ValidateToken(token, now)).value.expiresAt.None? ==>
                r == NilExpiryPanic && tokenBlacklist == old(tokenBlacklist)
      ensures r == LoggedOut <==> old(ValidateToken(token, now)).Ok? && old(ValidateToken(token, now)).value.expiresAt.Some?
      ensures r == LoggedOut ==>
                tokenBlacklist == old(tokenBlacklist)[token := old(ValidateToken(token, now)).value.expiresAt.value]
      ensures r == LoggedOut ==> forall later :: later < tokenBlacklist[token] ==> ValidateToken(token, later) == Err(Revoked)
      ensures old(tokenBlacklist).Keys <= tokenBlacklist.Keys
      ensures forall k :: k in old(tokenBlacklist) && now < old(tokenBlacklist)[k] ==> tokenBlacklist[k] == old(tokenBlacklist)[k]
    {
      var validated := ValidateToken(token, now);
      if validated.Err? {
        return LogoutFailed(validated.error);
      }
      if validated.value.expiresAt.None? {
        return NilExpiryPanic;
      }
      tokenBlacklist := tokenBlacklist[token := validated.value.expiresAt.value];
      r := LoggedOut;
    }

    /** `GetUserProfile`: the stored user with this id, without its password hash. */
    function GetUserProfile(userId: int): (r: Result<UserResponse, AuthError>)
      reads userRepo
      ensures r.Ok? <==> exists i :: 0 <= i < |userRepo.rows| && userRepo.rows[i].id == userId
      ensures r.Ok? ==> r.value.id == userId && exists u :: u in userRepo.rows && u.id == userId && r.value == ResponseOf(u)
      ensures r.Err? ==> r == Err(ProfileNotFound(UserNotFound))
    {
      match userRepo.FindByID(userId)
      case Err(e) => Err(ProfileNotFound(e))
      case Ok(user) => Ok(ResponseOf(user))
    }
  }

  /** Both failure causes of Login look the same to the caller. */
  lemma LoginHidesWhichCheckFailed(s: AuthService, unknown: string, known: string, pw1: string, pw2: string, now: int)
    requires s.userRepo.FindByEmail(unknown).Err?
    requires s.userRepo.FindByEmail(known).Ok?
    requires !s.passwords.check(pw2, s.userRepo.FindByEmail(known).value.passwordHash)
    ensures s.Login(unknown, pw1, now) == s.Login(known, pw2, now) == Err(InvalidCredentials)
    ensures Message(s.Login(unknown, pw1, now).error) == "invalid email or password"
  {
  }

  /**
   * With a sound HS256 library, a token issued for a user at `now` validates at any
   * earlier-than-expiry time that has no live revocation entry, to that user's claims.
   */
  lemma IssuedTokenValidates(s: AuthService, user: User, now: int, token: string, later: int)
    requires SoundHs256(s.lib)
    requires s.lib.sign(s.IssueClaims(user, now), s.jwtSecret) == Ok(token)
    requires later < now + s.jwtExpiry
    requires !s.IsRevoked(token, later)
    ensures s.ValidateToken(token, later).Ok?
    ensures var c := s.ValidateToken(token, later).value;
            && c.userId == user.id && c.email == user.email && c.name == user.name && c.role == user.role
            && c.issuer == s.jwtIssuer && c.issuedAt == Some(now) && c.expiresAt == Some(now + s.jwtExpiry)
  {
    var c := s.IssueClaims(user, now);
    assert s.lib.decodeHeader(s.lib.sign(c, s.jwtSecret).value) == Ok(Header(HMAC, "HS256"));
    var t := s.lib.verify(s.lib.sign(c, s.jwtSecret).value, s.jwtSecret, later);
    assert t.Ok? && t.value.valid && SameButSubject(t.value.claims, c);
    assert t.value.claims.(subject := "").issuer == c.(subject := "").issuer;
  }

  /** The same, from a successful Login. */
  lemma LoginTokenValidates(s: AuthService, email: string, password: string, now: int, later: int)
    requires SoundHs256(s.lib)
    requires s.Login(email, password, now).Ok?
    requires later < now + s.jwtExpiry
    requires !s.IsRevoked(s.Login(email, password, now).value.token, later)
    ensures s.ValidateToken(s.Login(email, password, now).value.token, later).Ok?
    ensures s.ValidateToken(s.Login(email, password, now).value.token, later).value.email == email
  {
    var u := s.userRepo.FindByEmail(email).value;
    IssuedTokenValidates(s, u, now, s.Login(email, password, now).value.token, later);
  }

  /**
   * Logout is not idempotent: after a successful logout at `now`, a second logout of the
   * same token before its expiry fails with the revocation error.
   */
  method LogoutTwice(s: AuthService, token: string, now: int, later: int) returns (first: LogoutResult, second: LogoutResult)
    modifies s
    ensures first == LoggedOut ==>
              && s.VerifyToken(token, now).Ok? && s.VerifyToken(token, now).value.expiresAt.Some?
              && (later < s.VerifyToken(token, now).value.expiresAt.value ==> second == LogoutFailed(Revoked))
  {
    first := s.Logout(token, now);
    second := s.Logout(token, later);
  }
}
