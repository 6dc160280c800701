/** The authenticated user a request carries, and the role guards that
    stand in front of the routes. */
module Roles {
  import opened Common

  /** The user the authentication layer attaches to a request. `roleId`
      may be a number or a string, depending on who issued the token. */
  datatype User = User(id: Option<int>, userId: Option<int>, roleId: Option<Scalar>, roleName: Option<string>)

  /** A guard either lets the request through or answers 401 or 403. */
  datatype Verdict = Pass | Unauthorized | Forbidden

  function VerdictCode(v: Verdict): (c: int)
    ensures v.Pass? <==> c == 0
    ensures v.Unauthorized? <==> c == 401
    ensures v.Forbidden? <==> c == 403
  {
    match v
    case Pass => 0
    case Unauthorized => 401
    case Forbidden => 403
  }

  /** `roleName || ""` */
  function RoleName(u: User): string {
    if TruthyText(u.roleName) then u.roleName.value else ""
  }

  /** Does some allowed role equal `role` once both are lower-cased? */
  function SomeRoleMatches(role: string, allowed: seq<string>): (b: bool)
    ensures b <==> exists i :: 0 <= i < |allowed| && Lower(role) == Lower(allowed[i])
  {
    if allowed == [] then false
    else if Lower(role) == Lower(allowed[0]) then true
    else
      var b := SomeRoleMatches(role, allowed[1..]);
      assert forall i :: 0 < i < |allowed| ==> allowed[i] == allowed[1..][i - 1];
      if b then
        var i :| 0 <= i < |allowed| - 1 && Lower(role) == Lower(allowed[1..][i]);
        assert Lower(role) == Lower(allowed[i + 1]);
        true
      else false
  }

  /** `authorizeRoles(...allowed)`: a user whose role name equals one of
      the allowed roles, ignoring case; the role id plays no part. */
  function AuthorizeRoles(allowed: seq<string>, user: Option<User>): (v: Verdict)
    ensures user.None? <==> v == Unauthorized
    ensures user.Some? ==>
      (v == Pass <==> exists i :: 0 <= i < |allowed| && Lower(RoleName(user.value)) == Lower(allowed[i]))
    ensures v != Forbidden <==> user.None? || SomeRoleMatches(RoleName(user.value), allowed)
  {
    if user.None? then Unauthorized
    else if SomeRoleMatches(RoleName(user.value), allowed) then Pass
    else Forbidden
  }

  /** The role id is never consulted by `authorizeRoles`. */
  lemma AuthorizeRolesIgnoresRoleId(allowed: seq<string>, u: User, otherRoleId: Option<Scalar>)
    ensures AuthorizeRoles(allowed, Some(u)) == AuthorizeRoles(allowed, Some(u.(roleId := otherRoleId)))
  {
    assert RoleName(u) == RoleName(u.(roleId := otherRoleId));
  }

  /** Role id 2 (a number), or a role name that upper-cases to "ADMIN". */
  predicate IsAdmin(u: User) {
    u.roleId == Some(Num(2)) || Upper(RoleName(u)) == "ADMIN"
  }

  /** `requireAdmin` */
  function RequireAdmin(user: Option<User>): (v: Verdict)
    ensures user.None? <==> v == Unauthorized
    ensures user.Some? ==>
      (v == Pass <==> user.value.roleId == Some(Num(2)) || Upper(RoleName(user.value)) == "ADMIN")
  {
    if user.None? then Unauthorized
    else if IsAdmin(user.value) then Pass
    else Forbidden
  }

  /** `requireUser`: authorizeRoles("User", "Admin", "ADMIN"). */
  function RequireUser(user: Option<User>): Verdict {
    AuthorizeRoles(["User", "Admin", "ADMIN"], user)
  }

  /** `requireUser` lets through exactly the role names "user" and "admin"
      in any (ASCII) case. */
  lemma RequireUserSpec(user: Option<User>)
    ensures user.Some? ==>
      (RequireUser(user) == Pass <==> Lower(RoleName(user.value)) in {"user", "admin"})
    ensures user.None? ==> RequireUser(user) == Unauthorized
  {
    var allowed := ["User", "Admin", "ADMIN"];
    assert Lower(allowed[0]) == "user";
    assert Lower(allowed[1]) == "admin";
    assert Lower(allowed[2]) == "admin";
    if user.Some? {
      var r := Lower(RoleName(user.value));
      if r == "user" {
        assert Lower(RoleName(user.value)) == Lower(allowed[0]);
      } else if r == "admin" {
        assert Lower(RoleName(user.value)) == Lower(allowed[1]);
      }
    }
  }

  /** `requireOwnResourceOrAdmin`: an admin passes for any id; anyone else
      only when their user id is the route id. */
  function RequireOwnResourceOrAdmin(user: Option<User>, idParam: string): (v: Verdict)
    ensures user.None? <==> v == Unauthorized
    ensures user.Some? && IsAdmin(user.value) ==> v == Pass
    ensures user.Some? && !IsAdmin(user.value) ==>
      (v == Pass <==> user.value.userId.Some? && ParseInt(idParam) == user.value.userId)
  {
    if user.None? then Unauthorized
    else if IsAdmin(user.value) then Pass
    else if user.value.userId.Some? && ParseInt(idParam) == user.value.userId then Pass
    else Forbidden
  }

  /** Whoever passes `requireAdmin` passes `requireOwnResourceOrAdmin` for
      every id, and a missing user is refused the same way by every guard. */
  lemma AdminPassesOwnResource(user: Option<User>, idParam: string, allowed: seq<string>)
    ensures RequireAdmin(user) == Pass ==> RequireOwnResourceOrAdmin(user, idParam) == Pass
    ensures user.None? ==>
      RequireAdmin(user) == RequireUser(user) == RequireOwnResourceOrAdmin(user, idParam)
      == AuthorizeRoles(allowed, user) == Unauthorized
  {
  }

  /** A user without a role name is refused by `requireUser` and, unless
      role id 2, by `requireAdmin`. */
  lemma MissingRoleName(u: User)
    requires u.roleName.None?
    ensures RequireUser(Some(u)) == Forbidden
    ensures RequireAdmin(Some(u)) == (if u.roleId == Some(Num(2)) then Pass else Forbidden)
  {
    RequireUserSpec(Some(u));
    assert RoleName(u) == "";
    assert Lower("") == "";
  }
}
