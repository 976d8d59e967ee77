/** The role enumeration and the custom validators used by the auth and user routes. */
module DbAuthValidator {
  import opened Values
  import UserRepository

  /** The six roles a user can hold. */
  datatype Role = ADMIN | MANAGER | EMPLOYEE | CUSTOMER | GUEST | DELETED_USER

  function Name(r: Role): string
  {
    match r
    case ADMIN => "ADMIN"
    case MANAGER => "MANAGER"
    case EMPLOYEE => "EMPLOYEE"
    case CUSTOMER => "CUSTOMER"
    case GUEST => "GUEST"
    case DELETED_USER => "DELETED_USER"
  }

  /** The role strings a set of roles stands for. */
  function Names(rs: set<Role>): set<string>
  {
    set r | r in rs :: Name(r)
  }

  /** `ROLES`. */
  const ROLES: seq<string> := ["ADMIN", "MANAGER", "EMPLOYEE", "CUSTOMER", "GUEST", "DELETED_USER"]

  /** `ROLES` lists each role exactly once and nothing else. */
  lemma RolesAreTheEnumeration()
    ensures |ROLES| == 6
    ensures forall s :: s in ROLES <==> exists r :: Name(r) == s
    ensures forall i, j :: 0 <= i < j < |ROLES| ==> ROLES[i] != ROLES[j]
  {
    forall s | s in ROLES ensures exists r :: Name(r) == s {
      if s == "ADMIN" { assert Name(ADMIN) == s; }
      else if s == "MANAGER" { assert Name(MANAGER) == s; }
      else if s == "EMPLOYEE" { assert Name(EMPLOYEE) == s; }
      else if s == "CUSTOMER" { assert Name(CUSTOMER) == s; }
      else if s == "GUEST" { assert Name(GUEST) == s; }
      else { assert Name(DELETED_USER) == s; }
    }
  }

  /** Distinct roles have distinct names. */
  lemma NameInjective(a: Role, b: Role)
    requires Name(a) == Name(b)
    ensures a == b
  {
  }

  /** `ROLES.toString()`, as the refusal message shows it. */
  const RolesText := "ADMIN,MANAGER,EMPLOYEE,CUSTOMER,GUEST,DELETED_USER"

  /** `isRoleValid(role)`: passes iff the value is exactly one of the six role strings. */
  function IsRoleValid(role: Option<string>): (v: Verdict)
    ensures v.Accepted? <==> exists r :: Some(Name(r)) == role
  {
    RolesAreTheEnumeration();
    if role.Some? && role.value in ROLES then Accepted
    else Rejected(Show(role) + " is an invalid role. Remember that the only available roles are " + RolesText + ".")
  }

  /** Matching is exact: a role in another letter case is refused. */
  lemma RoleMatchIsCaseSensitive()
    ensures IsRoleValid(Some("admin")).Rejected?
    ensures IsRoleValid(Some("Admin")).Rejected?
    ensures IsRoleValid(Some("ADMIN")).Accepted?
  {
    assert Some(Name(ADMIN)) == Some("ADMIN");
  }

  /**
   * `isEmailUnique(email)`: throws iff the repository reports the email as present
   * (the repository's `isEmailUnique` answers true for a used email).
   */
  function IsEmailUnique(repo: UserRepository.Repository, email: Option<string>): (v: Verdict)
    reads repo
    requires repo.Valid()
    ensures v.Rejected? <==> exists k :: k in repo.rows && Some(repo.rows[k].email) == email
  {
    if repo.IsEmailUnique(email) then Rejected(Show(email) + " is already in use.") else Accepted
  }

  /** `isUsernameUnique(username)`: throws iff the username is already held by some row. */
  function IsUsernameUnique(repo: UserRepository.Repository, username: Option<string>): (v: Verdict)
    reads repo
    requires repo.Valid()
    ensures v.Rejected? <==> exists k :: k in repo.rows && Some(repo.rows[k].username) == username
  {
    if repo.IsUsernameUnique(username) then Rejected("The username " + Show(username) + " is already in use.") else Accepted
  }
}
