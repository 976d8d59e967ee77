/**
 * core/middleware/role_validator.js: six single-role gates that answer 500 when no
 * principal is attached and 401 `<username> is not <ROLE>.` otherwise.
 */
module RoleValidator {
  import opened Values
  import opened UserModel
  import opened Middleware
  import opened DbAuthValidator

  datatype GateName = IsUserAdmin | IsUserManager | IsUserEmployee | IsUserCustomer | IsUserGuest | IsUserDeleted

  /** The one role each gate lets through. */
  function Required(g: GateName): Role
  {
    match g
    case IsUserAdmin => ADMIN
    case IsUserManager => MANAGER
    case IsUserEmployee => EMPLOYEE
    case IsUserCustomer => CUSTOMER
    case IsUserGuest => GUEST
    case IsUserDeleted => DELETED_USER
  }

  /** `${username} is not <ROLE>.` */
  function NotRole(username: string, r: Role): string
  {
    username + " is not " + Name(r) + "."
  }

  /** One gate applied to `req.user`, with the role literal each function compares against. */
  function Gate(g: GateName, user: Option<UserRow>): (s: Step)
    ensures user.None? ==> s == Respond(500, JwtFirst)
    ensures user.Some? ==> (s == Next <==> user.value.role == Name(Required(g)))
    ensures user.Some? && s != Next ==> s == Respond(401, NotRole(user.value.username, Required(g)))
    ensures !s.Throw?
  {
    if user.None? then Respond(500, "To validate the role, it is required to validate the JWT before.")
    else
      var role, username := user.value.role, user.value.username;
      match g
      case IsUserAdmin => if role != "ADMIN" then Respond(401, NotRole(username, ADMIN)) else Next
      case IsUserManager => if role != "MANAGER" then Respond(401, NotRole(username, MANAGER)) else Next
      case IsUserEmployee => if role != "EMPLOYEE" then Respond(401, NotRole(username, EMPLOYEE)) else Next
      case IsUserCustomer => if role != "CUSTOMER" then Respond(401, NotRole(username, CUSTOMER)) else Next
      case IsUserGuest => if role != "GUEST" then Respond(401, NotRole(username, GUEST)) else Next
      case IsUserDeleted => if role != "DELETED_USER" then Respond(401, NotRole(username, DELETED_USER)) else Next
  }

  /** A principal passes at most one of the six gates, and passes one exactly when its role is in the enumeration. */
  lemma AtMostOneGate(u: UserRow, g1: GateName, g2: GateName)
    ensures Gate(g1, Some(u)) == Next && Gate(g2, Some(u)) == Next ==> g1 == g2
    ensures (exists g :: Gate(g, Some(u)) == Next) <==> u.role in ROLES
  {
    RolesAreTheEnumeration();
    if u.role in ROLES {
      var r :| Name(r) == u.role;
      var g := match r
        case ADMIN => IsUserAdmin
        case MANAGER => IsUserManager
        case EMPLOYEE => IsUserEmployee
        case CUSTOMER => IsUserCustomer
        case GUEST => IsUserGuest
        case DELETED_USER => IsUserDeleted;
      assert Gate(g, Some(u)) == Next;
    }
  }

  /** `module.exports`: the six single-role gates, and neither `isUserAllowed` nor `isUserMeAllowed`. */
  function Export(name: string): (g: Option<GateName>)
    ensures g.Some? <==> name in {"isUserAdmin", "isUserManager", "isUserEmployee", "isUserCustomer", "isUserGuest", "isUserDeleted"}
    ensures name == "isUserAllowed" || name == "isUserMeAllowed" ==> g.None?
  {
    if name == "isUserAdmin" then Some(IsUserAdmin)
    else if name == "isUserManager" then Some(IsUserManager)
    else if name == "isUserEmployee" then Some(IsUserEmployee)
    else if name == "isUserCustomer" then Some(IsUserCustomer)
    else if name == "isUserGuest" then Some(IsUserGuest)
    else if name == "isUserDeleted" then Some(IsUserDeleted)
    else None
  }
}
