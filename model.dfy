/** The record shapes of auth-service/internal/model/user.go. Times are whole seconds. */
module Model {
  import opened Results

  /** A stored user row; `passwordHash` is the bcrypt digest and never leaves the service. */
  datatype User = User(id: int, name: string, email: string, passwordHash: string, role: string, createdAt: int)

  /** The registration request body; `role` is optional and may be empty. */
  datatype RegisterRequest = RegisterRequest(name: string, email: string, password: string, role: string)

  /** What the service hands back about a user: everything but the password hash. */
  datatype UserResponse = UserResponse(id: int, name: string, email: string, role: string, createdAt: int)

  /**
   * JWTClaims: the four custom claims plus the registered claims the service uses.
   * `issuedAt` and `expiresAt` are pointers in Go (`*jwt.NumericDate`), so a parsed
   * token may lack them.
   */
  datatype Claims = Claims(
    userId: int, email: string, name: string, role: string,
    issuer: string, subject: string, issuedAt: Option<int>, expiresAt: Option<int>)

  /** What Register and Login return besides the token. */
  datatype Session = Session(user: UserResponse, token: string)

  function ResponseOf(u: User): UserResponse
  {
    UserResponse(u.id, u.name, u.email, u.role, u.createdAt)
  }
}
