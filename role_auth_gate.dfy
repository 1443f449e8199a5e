/** The role gate of auth-service/internal/middleware/role_auth.go. */
module RoleAuthGate {
  import opened Model
  import opened Gin

  const ClaimsNotFound := "JWT claims not found"
  const BadClaimsFormat := "Invalid JWT claims format"
  const InsufficientPermissions := "Insufficient permissions"

  class RoleAuthMiddleware {
    const allowedRoles: seq<string>

    constructor (allowedRoles: seq<string>)
      ensures this.allowedRoles == allowedRoles
    {
      this.allowedRoles := allowedRoles;
    }

    /**
     * `Middleware()` over the request context `ctx`: missing claims give 401, claims of the
     * wrong type 500, and typed claims pass exactly when their role is one of `allowedRoles`
     * (so order and repetition in the list do not matter); otherwise 403.
     */
    method Middleware(ctx: map<string, ContextValue>) returns (o: Outcome)
      ensures "jwtClaims" !in ctx ==> o == Abort(StatusUnauthorized, ClaimsNotFound)
      ensures "jwtClaims" in ctx && !ctx["jwtClaims"].JwtClaimsValue? ==> o == Abort(StatusInternalServerError, BadClaimsFormat)
      ensures "jwtClaims" in ctx && ctx["jwtClaims"].JwtClaimsValue? ==>
                && (o.Next? <==> ctx["jwtClaims"].claims.role in allowedRoles)
                && (o.Next? ==> o.stored == map[])
                && (o.Abort? ==> o == Abort(StatusForbidden, InsufficientPermissions))
      ensures allowedRoles == [] && "jwtClaims" in ctx && ctx["jwtClaims"].JwtClaimsValue? ==>
                o == Abort(StatusForbidden, InsufficientPermissions)
      ensures o.Next? ==> "jwtClaims" in ctx && ctx["jwtClaims"].JwtClaimsValue? && ctx["jwtClaims"].claims.role in allowedRoles
    {
      if "jwtClaims" !in ctx {
        return Abort(StatusUnauthorized, ClaimsNotFound);
      }
      var stored := ctx["jwtClaims"];
      if !stored.JwtClaimsValue? {
        return Abort(StatusInternalServerError, BadClaimsFormat);
      }
      var role := stored.claims.role;
      var hasAccess := false;
      var i := 0;
      while i < |allowedRoles|
        invariant 0 <= i <= |allowedRoles|
        invariant !hasAccess
        invariant forall j :: 0 <= j < i ==> allowedRoles[j] != role
      {
        if role == allowedRoles[i] {
          hasAccess := true;
          break;
        }
        i := i + 1;
      }
      if !hasAccess {
        return Abort(StatusForbidden, InsufficientPermissions);
      }
      o := Next(map[]);
    }
  }
}
