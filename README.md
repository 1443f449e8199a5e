# auth-service token lifecycle, in Dafny

A model of how the Go `auth-service` issues, checks and revokes its HS256 bearer tokens,
together with the three request gates that sit in front of its routes.

- `Service.AuthService` is the `authService` struct. Its configuration (`jwtSecret`,
  `jwtIssuer`, `jwtExpiry`) and its collaborators are `const` fields. The one piece of
  mutable state is `tokenBlacklist: map<string, int>`, which maps a revoked token string
  to the token's own expiry. `Register` and `Logout` are methods. `Login`, `ValidateToken`
  and `GetUserProfile` only read state, so they are functions: Dafny then shows that they
  cannot write the map. `Logout` is the only method of the class whose frame includes
  `tokenBlacklist`.
- `ValidateToken` first checks the blacklist. It then parses with a key function that
  releases the secret only to HMAC tokens (`HmacKey`, `VerifyToken`), and finally checks
  the issuer, in the same order as the Go code.
- `Logout` validates again and then records `blacklist[token] = exp`. Its contract says:
  - a failed validation leaves the map unchanged and returns the same error;
  - no other key changes, and no key is ever removed;
  - a live entry is never altered;
  - the token is refused with "token has been revoked" at every time before its expiry.
- `JwtAuthGate` (jwt_auth.go) reads the `jwt` cookie first, then the `Authorization`
  header under the split rule. `RoleAuthGate` (role_auth.go) is the role-membership loop.
  `JwtPrefixGate` (jwt.go) is the older prefix/trim rule, whose key function does not pin
  the algorithm.
- External collaborators are parameters:
  - time is an integer `now` in seconds;
  - golang-jwt is a `Jwt.Library` record with three opaque functions, `decodeHeader`
    (which reports the declared algorithm family), `verify` and `sign`;
  - bcrypt is a `Repository.PasswordHasher` with opaque `hash` and `check` functions;
  - the SQL users table is `Repository.UserRepository`, a sequence of rows with
    auto-increment ids and a unique email.
  Every statement about the service holds for every such library and hasher. The
  round-trip lemmas assume a library that satisfies `Jwt.SoundHs256`.

The code checks the blacklist before the signature, never removes expired entries (there
is no sweep), and refuses a second `Logout` of the same token before its expiry with
"token has been revoked" (`Service.LogoutTwice`).

Other details that follow from the code:
- The claims' `exp` is a pointer in Go. A validly signed token without `exp` passes
  `ValidateToken`, and `Logout` then dereferences the nil pointer before writing the map.
  The model returns `NilExpiryPanic` for this case, with the map unchanged.
- `model.JWTClaims` tags both `UserID` and the embedded `RegisteredClaims.Subject` as
  `sub`. For that reason `SoundHs256` requires a token's claims to read back only up to
  the `subject` field.

## Model

| member | source | states |
|---|---|---|
| `Service.NormalizeRole` | auth-service/internal/service/auth_service.go:48-55 | An empty role becomes "user", and "user" or "admin" pass unchanged. Any other role is `InvalidRole`, and every accepted role is "user" or "admin". |
| `Service.AuthService.constructor` | auth-service/internal/service/auth_service.go:31-44 | Keeps the store, secret, issuer, expiry, signing library and hasher, and starts with an empty revocation map. |
| `Service.AuthService.IssueClaims` | auth-service/internal/service/auth_service.go:78-89 | Issued claims have `iat = now`, `exp = now + jwtExpiry` and `iss = jwtIssuer`. The id, email, name and role are the stored user's. `sub` is the `%d` text of the user id, which is canonical (optional '-', no leading zero) and reads back to that id. |
| `Service.AuthService.Register` | auth-service/internal/service/auth_service.go:47-107 | An invalid role is refused before the hasher or the store is used, and the store is left unchanged. A hash failure or a duplicate email also leaves the store unchanged. Otherwise exactly one row is appended, with the next id, the normalised role and the hash. The token is the signature of that row's issued claims, or a signing error comes after the row was stored. |
| `Service.AuthService.Login` | auth-service/internal/service/auth_service.go:110-150 | An unknown email and a wrong password both give `InvalidCredentials` and no token. A stored user whose password checks gets a token exactly when signing succeeds, and a signing failure is `SigningFailed` with the library's text. A success returns that user's response and the signature of the claims issued for that user. |
| `Service.LoginHidesWhichCheckFailed` | auth-service/internal/service/auth_service.go:111-119 | The two failure causes of Login give equal results, with the text "invalid email or password". |
| `Service.AuthService.HmacKey` | auth-service/internal/service/auth_service.go:159-164 | The key function hands out the secret exactly when the declared method is HMAC, and otherwise fails with "unexpected signing method: " and the `alg` text. |
| `Jwt.ParseWithClaims` | auth-service/internal/service/auth_service.go:159-166 | The parse decodes the header first, then asks the key function, and checks the signature only with the key it returned. A malformed token or a refusing key function fails without any verification. |
| `Service.AuthService.VerifyToken` | auth-service/internal/service/auth_service.go:159-177 | Succeeds exactly when the header declares HMAC, the library verifies the token under the secret, `token.Valid` holds and the issuer matches. A token that declares another family is refused with "unexpected signing method" and its signature is never checked. An undecodable or library-rejected token is `InvalidToken` carrying the library's error. Invalid claims and a wrong issuer are told apart. |
| `Service.AuthService.ValidateToken` | auth-service/internal/service/auth_service.go:153-178 | A live blacklist entry (`now < expiry`) gives `Revoked` whatever the token is. Without one the result, success or error, is exactly the stateless verifier's. Acceptance requires no live entry, and accepted claims carry `iss == jwtIssuer`. |
| `Service.AuthService.Logout` | auth-service/internal/service/auth_service.go:181-189 | A validation failure returns that error and leaves the map unchanged. On success exactly `map[token] := exp` is written, and later validations before `exp` give `Revoked`. Keys are never removed and live entries never change. Claims without `exp` panic before the write. |
| `Service.LogoutTwice` | auth-service/internal/service/auth_service.go:182-187 | After a successful logout, a second logout of the same token before its expiry fails with `Revoked`, so logout is not idempotent. |
| `Service.AuthService.GetUserProfile` | auth-service/internal/service/auth_service.go:192-205 | Succeeds exactly when a stored row has the id, and returns that row without its hash. Otherwise it gives "user not found: user not found". |
| `Service.IssuedTokenValidates` | auth-service/internal/service/auth_service.go:121-136 | With a sound HS256 library, a token signed over issued claims validates at any time before `now + jwtExpiry` that has no live revocation entry. The claims it yields are the user's. |
| `Service.LoginTokenValidates` | auth-service/internal/service/auth_service.go:110-150 | With a sound library, a token from a successful Login validates before its expiry unless it is revoked. The validated email is the login email. |
| `Repository.UserRepository.CreateUser` | auth-service/internal/repository/user_repository.go:52-68 | A duplicate email is refused and the rows stay unchanged. Otherwise one row is appended with id `count + 1` and that id is returned, and the table invariant is kept. |
| `Repository.UserRepository.FindByEmail` | auth-service/internal/repository/user_repository.go:71-87 | A returned user is a stored row with that email. "user not found" means that no row has it. |
| `Repository.UserRepository.FindByID` | auth-service/internal/repository/user_repository.go:90-106 | A returned user is a stored row with that id. "user not found" means that no row has it. |
| `DecimalText.IntRoundTrip` | auth-service/internal/service/auth_service.go:87 | The `%d` text of an integer reads back to that integer. |
| `DecimalText.IntToStringInjective` | auth-service/internal/service/auth_service.go:131 | Distinct user ids give distinct `sub` texts. |
| `GoStrings.Split` | auth-service/internal/middleware/jwt_auth.go:39 | `strings.Split` gives at least one piece, no piece contains the separator, and joining the pieces gives back the input. |
| `JwtAuthGate.BearerFromHeaderExactly` | auth-service/internal/middleware/jwt_auth.go:39-46 | The split rule accepts a header exactly when it is "Bearer ", one space and then a token without spaces. The token is the second piece. |
| `JwtAuthGate.SelectToken` | auth-service/internal/middleware/jwt_auth.go:25-47 | A `jwt` cookie is the token and the header is then ignored. Without a cookie, an empty header gives 401 "Authorization header or cookie required". A header that is not Bearer-shaped gives 401 with the format error, and otherwise the token is what follows "Bearer ". |
| `JwtAuthGate.SplitRuleRejects` | auth-service/internal/middleware/jwt_auth.go:39-44 | "Bearer", "Bearer a b" and "Bearer  a" are each refused with 401. |
| `JwtAuthGate.JwtAuthMiddleware.constructor` | auth-service/internal/middleware/jwt_auth.go:17-19 | The gate keeps the service it delegates to. |
| `JwtAuthGate.JwtAuthMiddleware.Middleware` | auth-service/internal/middleware/jwt_auth.go:22-60 | The request continues exactly when a token was selected and ValidateToken accepts it. Only then is "jwtClaims" set, and it is set to the returned claims. Every abort is a 401, a refused token carries the service's error text, and a revoked cookie token gives "token has been revoked". |
| `RoleAuthGate.RoleAuthMiddleware.constructor` | auth-service/internal/middleware/role_auth.go:16-18 | The gate keeps the list of allowed roles it was given. |
| `RoleAuthGate.RoleAuthMiddleware.Middleware` | auth-service/internal/middleware/role_auth.go:21-55 | Missing claims give 401 and claims of the wrong type give 500, both before the role check. Typed claims continue exactly when their role is an element of `allowedRoles`, so order and repetition in the list do not matter. Otherwise the result is 403 "Insufficient permissions", which is always the case for an empty list. |
| `JwtPrefixGate.BearerByPrefixExactly` | auth-service/internal/middleware/jwt.go:14-20 | The prefix rule accepts a header exactly when it is "Bearer " followed by anything. The token is the rest after one "Bearer " is removed. |
| `JwtPrefixGate.SplitRuleImpliesPrefixRule` | auth-service/internal/middleware/jwt.go:14-20 | Whatever the split rule of jwt_auth.go accepts, the prefix rule accepts with the same token. |
| `JwtPrefixGate.PrefixRuleAcceptsInnerSpace` | auth-service/internal/middleware/jwt.go:20 | "Bearer a b" yields "a b" here but is refused by the split rule. |
| `JwtPrefixGate.JwtAuth` | auth-service/internal/middleware/jwt.go:11-35 | A header that fails the prefix rule gives 401 "missing or invalid token". A parse error or an invalid token gives 401 "invalid or expired token". A valid token continues with its claims under "claims" and not "jwtClaims", and the signing method is never checked. |
| `JwtPrefixGate.NoAlgorithmPinning` | auth-service/internal/middleware/jwt.go:21-23 | A token that declares a non-HMAC method but verifies under the secret passes this gate, while the service's ValidateToken refuses it. This is a statement about the key functions only; whether a real library verifies such a token under a shared secret is not modelled. |

## Left out

- HS256 signing and verification, the compact serialization and golang-jwt's `exp`/`nbf` checks are library code. They are the opaque functions of `Jwt.Library`. The prefix golang-jwt puts before a key-function error is not modelled; the error text carries only the key function's message.
- bcrypt is the opaque `Repository.PasswordHasher`. Its salting and cost are not modelled.
- Repository.UserRepository.FindByEmail: matches emails by exact string equality; MySQL compares `WHERE email = ?` under the column's collation, which is case-insensitive by default, so the service also accepts a login whose email differs from the stored one only in letter case (and `Service.LoginTokenValidates` then yields the stored email, not necessarily the typed one).
- Repository.UserRepository.CreateUser: refuses duplicates by exact string equality (the UNIQUE key also uses the collation), and assigns gap-free ids `count + 1`; MySQL's AUTO_INCREMENT can skip values, for instance after a failed duplicate insert.
- SQL storage is a sequence of rows. Database and driver failures other than a duplicate email are not modelled, and the duplicate-key text is a stand-in for the driver's message.
- Wall-clock time is whole seconds, passed in as `now`. The two `time.Now()` calls of claim construction and the `CreatedAt` call become one `now`. Sub-second truncation by `jwt.NewNumericDate` is not modelled. `int64` ids and durations are unbounded integers.
- The type assertion `token.Claims.(*model.JWTClaims)` in ValidateToken and `token.Claims.(jwt.MapClaims)` in jwt.go always succeed for the claims types passed to the parser. The model therefore has no failing case for them.
- Concurrency: the Go map is shared by request goroutines without a lock. The model is sequential.
- The HTTP handlers (cookie setting, status mapping), the router, `main.go` and configuration loading are not modelled. `Repository.UserRepository.Migrate` is not modelled either.
- Token uniqueness (a new login gives a token different from an earlier one) depends on the library's encoding and on the clock, and is not stated.
