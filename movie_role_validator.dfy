/**
 * crud/movie/middleware/movie_role_validator.js: three gates for the movie routes, answering
 * 500 when no principal is attached and 401 otherwise.
 */
module MovieRoleValidator {
  import opened Values
  import opened UserModel
  import opened Middleware
  import opened DbAuthValidator

  datatype GateName = IsUserAllowed | IsUserAllowedToSaveAndUpdate | IsUserAdmin

  /** The roles each gate is documented to let through. */
  function AcceptSet(g: GateName): set<Role>
  {
    match g
    case IsUserAllowed => {MANAGER, ADMIN, EMPLOYEE, CUSTOMER}
    case IsUserAllowedToSaveAndUpdate => {MANAGER, ADMIN, EMPLOYEE}
    case IsUserAdmin => {ADMIN}
  }

  /** The comparison chain each gate writes out, negated. */
  predicate Admits(g: GateName, role: string)
  {
    match g
    case IsUserAllowed => !(role != "MANAGER" && role != "ADMIN" && role != "EMPLOYEE" && role != "CUSTOMER")
    case IsUserAllowedToSaveAndUpdate => !(role != "MANAGER" && role != "ADMIN" && role != "EMPLOYEE")
    case IsUserAdmin => !(role != "ADMIN")
  }

  lemma AdmitsExactly(g: GateName, role: string)
    ensures Admits(g, role) <==> role in Names(AcceptSet(g))
  {
    if Admits(g, role) {
      var r :| r in AcceptSet(g) && Name(r) == role by {
        if role == "ADMIN" { assert Name(ADMIN) == role; }
        else if role == "MANAGER" { assert Name(MANAGER) == role; }
        else if role == "EMPLOYEE" { assert Name(EMPLOYEE) == role; }
        else { assert Name(CUSTOMER) == role; }
      }
    }
  }

  /** The 401 message: `isUserAdmin` names the role, the other two say "not allowed". */
  function Refusal(g: GateName, username: string): string
  {
    if g == IsUserAdmin then username + " is not ADMIN." else username + " is not allowed."
  }

  function Gate(g: GateName, user: Option<UserRow>): (s: Step)
    ensures user.None? ==> s == Respond(500, JwtFirst)
    ensures user.Some? ==> (s == Next <==> user.value.role in Names(AcceptSet(g)))
    ensures user.Some? && s != Next ==> s == Respond(401, Refusal(g, user.value.username))
  {
    if user.None? then Respond(500, JwtFirst)
    else
      AdmitsExactly(g, user.value.role);
      if !Admits(g, user.value.role) then Respond(401, Refusal(g, user.value.username))
      else Next
  }

  /** The gates are nested: whoever may delete may save and update, and whoever may save may read. */
  lemma GatesNested(user: Option<UserRow>)
    ensures Gate(IsUserAdmin, user) == Next ==> Gate(IsUserAllowedToSaveAndUpdate, user) == Next
    ensures Gate(IsUserAllowedToSaveAndUpdate, user) == Next ==> Gate(IsUserAllowed, user) == Next
  {
    if user.Some? {
      AdmitsExactly(IsUserAdmin, user.value.role);
      AdmitsExactly(IsUserAllowedToSaveAndUpdate, user.value.role);
      AdmitsExactly(IsUserAllowed, user.value.role);
    }
  }

  /** GUEST and DELETED_USER are refused by every movie gate; CUSTOMER may only read. */
  lemma RefusedRoles(u: UserRow, g: GateName)
    ensures u.role == "GUEST" || u.role == "DELETED_USER" ==> Gate(g, Some(u)) == Respond(401, Refusal(g, u.username))
    ensures u.role == "CUSTOMER" ==> (Gate(g, Some(u)) == Next <==> g == IsUserAllowed)
  {
    AdmitsExactly(g, u.role);
  }

  /** `module.exports`. */
  function Export(name: string): (g: Option<GateName>)
    ensures g.Some? <==> name in {"isUserAllowed", "isUserAllowedToSaveAndUpdate", "isUserAdmin"}
  {
    if name == "isUserAllowed" then Some(IsUserAllowed)
    else if name == "isUserAllowedToSaveAndUpdate" then Some(IsUserAllowedToSaveAndUpdate)
    else if name == "isUserAdmin" then Some(IsUserAdmin)
    else None
  }
}
