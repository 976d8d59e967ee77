/**
 * core/middleware/user_role_validator.js: eight gates that throw an
 * UnauthorizedException (401) or call `next`.
 */
module UserRoleValidator {
  import opened Values
  import opened UserModel
  import opened AppException
  import opened Middleware
  import opened DbAuthValidator

  datatype GateName =
    | IsUserAdmin | IsUserManager | IsUserAllowed | IsUserMeAllowed
    | IsUserEmployee | IsUserCustomer | IsUserGuest | IsUserDeleted

  /** The comparison each gate writes out, negated: the roles it does not throw for. */
  predicate Admits(g: GateName, role: string)
  {
    match g
    case IsUserAdmin => !(role != "ADMIN")
    case IsUserManager => !(role != "MANAGER")
    case IsUserAllowed => !(role != "MANAGER" && role != "ADMIN")
    case IsUserMeAllowed => !(role != "MANAGER" && role != "ADMIN" && role != "EMPLOYEE" && role != "CUSTOMER")
    case IsUserEmployee => !(role != "EMPLOYEE")
    case IsUserCustomer => !(role != "CUSTOMER")
    case IsUserGuest => !(role != "GUEST")
    case IsUserDeleted => !(role != "DELETED_USER")
  }

  /** The roles each gate is documented to let through; there is no hierarchy among them. */
  function AcceptSet(g: GateName): set<Role>
  {
    match g
    case IsUserAdmin => {ADMIN}
    case IsUserManager => {MANAGER}
    case IsUserAllowed => {MANAGER, ADMIN}
    case IsUserMeAllowed => {MANAGER, ADMIN, EMPLOYEE, CUSTOMER}
    case IsUserEmployee => {EMPLOYEE}
    case IsUserCustomer => {CUSTOMER}
    case IsUserGuest => {GUEST}
    case IsUserDeleted => {DELETED_USER}
  }

  /** Each gate's string test admits exactly the names of its accept set. */
  lemma AdmitsExactly(g: GateName, role: string)
    ensures Admits(g, role) <==> role in Names(AcceptSet(g))
  {
    if Admits(g, role) {
      var r :| r in AcceptSet(g) && Name(r) == role by {
        if role == "ADMIN" { assert Name(ADMIN) == role; }
        else if role == "MANAGER" { assert Name(MANAGER) == role; }
        else if role == "EMPLOYEE" { assert Name(EMPLOYEE) == role; }
        else if role == "CUSTOMER" { assert Name(CUSTOMER) == role; }
        else if role == "GUEST" { assert Name(GUEST) == role; }
        else { assert Name(DELETED_USER) == role; }
      }
    }
  }

  function NotAvailable(role: string): string
  {
    "Requested resource is not available for " + role + " users."
  }

  /** One gate applied to `req.user`. It only reads the principal, so it cannot change it. */
  function Gate(g: GateName, user: Option<UserRow>): (s: Step)
    ensures user.None? ==> s == Throw(Raise(Unauthorized, JwtFirst))
    ensures user.Some? ==> (s == Next <==> user.value.role in Names(AcceptSet(g)))
    ensures user.Some? && s != Next ==> s == Throw(Raise(Unauthorized, NotAvailable(user.value.role)))
    ensures s.Throw? ==> s.error.statusCode == 401
  {
    if user.None? then Throw(Raise(Unauthorized, JwtFirst))
    else
      AdmitsExactly(g, user.value.role);
      if !Admits(g, user.value.role) then Throw(Raise(Unauthorized, NotAvailable(user.value.role)))
      else Next
  }

  /** No hierarchy: an ADMIN is refused by every single-role gate other than `isUserAdmin`. */
  lemma NoHierarchy(u: UserRow)
    requires u.role == "ADMIN"
    ensures Gate(IsUserAdmin, Some(u)) == Next
    ensures Gate(IsUserManager, Some(u)).Throw?
    ensures Gate(IsUserEmployee, Some(u)).Throw?
    ensures Gate(IsUserCustomer, Some(u)).Throw?
    ensures Gate(IsUserGuest, Some(u)).Throw?
    ensures Gate(IsUserDeleted, Some(u)).Throw?
  {
    assert Name(ADMIN) == u.role;
  }

  /** GUEST and DELETED_USER pass only their own gate. */
  lemma GuestAndDeletedPassOnlyTheirOwnGate(u: UserRow, g: GateName)
    requires u.role == "GUEST" || u.role == "DELETED_USER"
    ensures Gate(g, Some(u)) == Next <==> (u.role == "GUEST" && g == IsUserGuest) || (u.role == "DELETED_USER" && g == IsUserDeleted)
  {
    AdmitsExactly(g, u.role);
  }

  /** A role string outside the enumeration passes no gate. */
  lemma UnknownRolePassesNothing(u: UserRow, g: GateName)
    requires u.role !in ROLES
    ensures Gate(g, Some(u)).Throw?
  {
    RolesAreTheEnumeration();
    AdmitsExactly(g, u.role);
  }

  /** `module.exports`: all eight gates. */
  function Export(name: string): (g: Option<GateName>)
    ensures g.Some? <==> name in {"isUserAdmin", "isUserManager", "isUserEmployee", "isUserCustomer", "isUserGuest", "isUserDeleted", "isUserAllowed", "isUserMeAllowed"}
  {
    if name == "isUserAdmin" then Some(IsUserAdmin)
    else if name == "isUserManager" then Some(IsUserManager)
    else if name == "isUserEmployee" then Some(IsUserEmployee)
    else if name == "isUserCustomer" then Some(IsUserCustomer)
    else if name == "isUserGuest" then Some(IsUserGuest)
    else if name == "isUserDeleted" then Some(IsUserDeleted)
    else if name == "isUserAllowed" then Some(IsUserAllowed)
    else if name == "isUserMeAllowed" then Some(IsUserMeAllowed)
    else None
  }
}
