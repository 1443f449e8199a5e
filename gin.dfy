/**
 * What a gin handler does to its request context, as a value: it either aborts with a
 * status and an error text, or calls the next handler after storing some values.
 */
module Gin {
  import opened Model

  const StatusUnauthorized := 401
  const StatusForbidden := 403
  const StatusInternalServerError := 500

  /** A value stored in the context: typed `*model.JWTClaims`, loose `jwt.MapClaims`, or anything else. */
  datatype ContextValue = JwtClaimsValue(claims: Claims) | MapClaimsValue(claims: Claims) | OtherValue

  /** `c.JSON(status, {"error": ...}); c.Abort()` or `c.Set(...)...; c.Next()`. */
  datatype Outcome = Abort(status: int, error: string) | Next(stored: map<string, ContextValue>)
}
