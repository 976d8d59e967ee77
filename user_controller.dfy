/**
 * core/controller/user_controller.js: reading and editing user records. The two edit
 * handlers load a row, merge request values into it field by field (a new value is
 * adopted only when truthy), and write it back with `update`.
 */
module UserController {
  import opened Values
  import opened UserModel
  import opened Middleware
  import opened UserRepository
  import opened Tables
  import AuthController

  const Retrieved := "User retrieved successfully."
  const Updated := "User updated successfully."

  /** `findById`: the row under the `:id` parameter, which may be absent; a malformed id fails the query. */
  method FindById(req: Request, repo: Repository) returns (reply: Reply<Option<UserRow>>)
    requires repo.Valid()
    ensures IdParam(req.id).None? ==> reply == ServerError()
    ensures IdParam(req.id).Some? ==>
      var id := IdParam(req.id).value;
      reply == Ok(Retrieved, if id in repo.rows then Some(repo.rows[id]) else None)
  {
    var id := IdParam(req.id);
    if id.None? {
      return ServerError();
    }
    var dao := repo.First(ById(id.value));
    if id.value in repo.rows {
      assert Matches(repo.rows[id.value], ById(id.value));
    }
    return Ok(Retrieved, dao);
  }

  /** `findAll`: `userRepository.findAll` is not exported, so calling it throws: always 500. */
  method FindAll(req: Request, repo: Repository) returns (reply: Reply<seq<UserRow>>)
    requires repo.Valid()
    ensures reply == ServerError()
  {
    HandlersNotExported();
    return ServerError();
  }

  /** `deleteById`: `userRepository.deleteById` is not exported either: always 500, nothing deleted. */
  method DeleteById(req: Request, repo: Repository) returns (reply: Reply<()>)
    requires repo.Valid()
    ensures reply == ServerError()
  {
    HandlersNotExported();
    return ServerError();
  }

  /** `findMe`: the requester's own row, looked up again by `req.user.id`. */
  method FindMe(req: Request, repo: Repository) returns (reply: Reply<Option<UserRow>>)
    requires repo.Valid()
    ensures req.user.None? ==> reply == ServerError()
    ensures req.user.Some? ==>
      var id := req.user.value.id;
      reply == Ok(Retrieved, if id in repo.rows then Some(repo.rows[id]) else None)
  {
    if req.user.None? {
      return ServerError();
    }
    var dao := repo.First(ById(req.user.value.id));
    if req.user.value.id in repo.rows {
      assert Matches(repo.rows[req.user.value.id], ById(req.user.value.id));
    }
    return Ok(Retrieved, dao);
  }

  /**
   * The guard of `updateById`: a non-null requested role other than "ADMIN" throws when the
   * requester is a MANAGER, and also when no requester is attached (reading `req.user.role`
   * on undefined). As written it therefore lets a MANAGER request "ADMIN".
   */
  predicate GuardThrows(role: Option<string>, requester: Option<UserRow>)
  {
    role.Some? && role.value != "ADMIN" && (requester.None? || requester.value.role == "MANAGER")
  }

  /** A MANAGER may set no role but ADMIN; any other requester may set any role. */
  lemma ManagerGuard(role: string, requester: UserRow)
    ensures requester.role == "MANAGER" ==> (GuardThrows(Some(role), Some(requester)) <==> role != "ADMIN")
    ensures requester.role != "MANAGER" ==> !GuardThrows(Some(role), Some(requester))
    ensures !GuardThrows(None, Some(requester))
  {
  }

  /** The row `updateById` writes: the merged role, and NULL for both tokens, which the handler never sets. */
  function RoleAssigned(r: UserRow, role: Option<string>): (s: UserRow)
    ensures s.id == r.id && s.username == r.username && s.first_name == r.first_name && s.last_name == r.last_name
    ensures s.is_enabled == r.is_enabled && s.email == r.email && s.password == r.password && s.created_at == r.created_at
    ensures s.reset_password_token == None && s.verify_token == None
    ensures Present(role) ==> s.role == role.value
    ensures !Present(role) ==> s.role == r.role
    ensures Fits(r) ==> (Fits(s) <==> !Present(role) || FitsVarchar(role.value))
  {
    r.(role := OrElseText(role, r.role), reset_password_token := None, verify_token := None)
  }

  /** The object `updateById` answers with: `isEnabled` merged, the role merged, names copied. */
  function UpdatedDto(r: UserRow, isEnabled: JsValue, role: Option<string>): UserObject
  {
    WithAliases(Loaded(r.(role := OrElseText(role, r.role))))
      .(isEnabled := if Truthy(isEnabled) then isEnabled else FromText(r.is_enabled))
  }

  /**
   * `updateById`. The role is adopted when truthy. `isEnabled` is merged into the response
   * only: `update` never writes `is_enabled`. A thrown guard, a malformed id, an absent
   * row (whose first property copy throws) or a role over 255 characters (the awaited
   * UPDATE rejects) all end in 500 with no write.
   */
  method UpdateById(req: Request, repo: Repository) returns (reply: Reply<UserObject>)
    requires repo.Valid()
    modifies repo
    ensures repo.Valid() && repo.nextId == old(repo.nextId)
    ensures var role := TextField(req.body, "role");
      var id := IdParam(req.id);
      && (GuardThrows(role, req.user) || id.None? || id.value !in old(repo.rows) ==>
            reply == ServerError() && repo.rows == old(repo.rows))
      && (!GuardThrows(role, req.user) && id.Some? && id.value in old(repo.rows)
          && !Fits(RoleAssigned(old(repo.rows)[id.value], role)) ==>
            reply == ServerError() && repo.rows == old(repo.rows))
      && (!GuardThrows(role, req.user) && id.Some? && id.value in old(repo.rows)
          && Fits(RoleAssigned(old(repo.rows)[id.value], role)) ==>
            && repo.rows == old(repo.rows)[id.value := RoleAssigned(old(repo.rows)[id.value], role)]
            && reply == Ok(Updated, UpdatedDto(old(repo.rows)[id.value], Field(req.body, "isEnabled"), role)))
    ensures AuthController.TokensBound(old(repo.rows)) ==> AuthController.TokensBound(repo.rows)
  {
    var isEnabled, role := Field(req.body, "isEnabled"), TextField(req.body, "role");
    if role.Some? && role.value != "ADMIN" {
      if req.user.None? {
        return ServerError();
      }
      if req.user.value.role == "MANAGER" {
        // throw new Error("ADMIN role cannot be modified.")
        return ServerError();
      }
    }
    var id := IdParam(req.id);
    if id.None? {
      return ServerError();
    }
    var found := repo.First(ById(id.value));
    if found.None? {
      return ServerError();
    }
    var dto := WithAliases(Loaded(found.value));
    dto := dto.(isEnabled := if Truthy(isEnabled) then isEnabled else FromText(dto.row.is_enabled));
    dto := dto.(row := dto.row.(role := OrElseText(role, dto.row.role)));
    ghost var before := repo.rows;
    OwnEmailFree(before, dto.row.id, dto.row.email);
    assert Written(found.value, dto) == RoleAssigned(found.value, role);
    var ok := repo.Update(dto);
    if !ok {
      return ServerError();
    }
    assert repo.rows == before[id.value := RoleAssigned(found.value, role)];
    if AuthController.TokensBound(before) {
      AuthController.TransitionKeepsBound(before, id.value, RoleAssigned(found.value, role));
    }
    return Ok(Updated, dto);
  }

  /**
   * The row `updateMe` writes: names, username and email adopted when truthy (the
   * uniqueness calls are not awaited, so the promise they return is always truthy),
   * and NULL for both tokens.
   */
  function MeEdited(r: UserRow, body: Body): (s: UserRow)
    ensures s.id == r.id && s.role == r.role && s.password == r.password && s.is_enabled == r.is_enabled
    ensures s.first_name == OrElse(TextField(body, "firstName"), r.first_name)
    ensures s.last_name == OrElse(TextField(body, "lastName"), r.last_name)
    ensures s.username == OrElseText(TextField(body, "username"), r.username)
    ensures s.email == OrElseText(TextField(body, "email"), r.email)
    ensures s.reset_password_token == None && s.verify_token == None
    ensures Fits(r) ==> (Fits(s) <==>
      && (Present(TextField(body, "firstName")) ==> FitsVarchar(TextField(body, "firstName").value))
      && (Present(TextField(body, "lastName")) ==> FitsVarchar(TextField(body, "lastName").value))
      && (Present(TextField(body, "username")) ==> FitsVarchar(TextField(body, "username").value))
      && (Present(TextField(body, "email")) ==> FitsVarchar(TextField(body, "email").value)))
  {
    r.(first_name := OrElse(TextField(body, "firstName"), r.first_name),
       last_name := OrElse(TextField(body, "lastName"), r.last_name),
       username := OrElseText(TextField(body, "username"), r.username),
       email := OrElseText(TextField(body, "email"), r.email),
       reset_password_token := None, verify_token := None)
  }

  /** The object `updateMe` builds and answers with: the merged fields, and `isEnabled` copied from its column. */
  function MeDto(r: UserRow, body: Body): (u: UserObject)
    ensures Written(r, u) == MeEdited(r, body)
    ensures u.row.id == r.id && u.row.role == r.role && u.row.password == r.password
    ensures u.isEnabled == FromText(r.is_enabled)
    ensures u.resetPasswordToken == None && u.verifyToken == None
  {
    UserObject(
      r.(username := OrElseText(TextField(body, "username"), r.username),
         email := OrElseText(TextField(body, "email"), r.email)),
      OrElse(TextField(body, "firstName"), r.first_name),
      OrElse(TextField(body, "lastName"), r.last_name),
      r.created_at, FromText(r.is_enabled), None, None)
  }

  /**
   * `updateMe`: edits only the requester's own row, found again by `req.user.id`. An email
   * held by another row violates the UNIQUE constraint, and a text over 255 characters
   * does not fit its column: either way the awaited UPDATE rejects, 500 and no write.
   */
  method UpdateMe(req: Request, repo: Repository) returns (reply: Reply<UserObject>)
    requires repo.Valid()
    modifies repo
    ensures repo.Valid() && repo.nextId == old(repo.nextId)
    ensures req.user.None? || req.user.value.id !in old(repo.rows) ==> reply == ServerError() && repo.rows == old(repo.rows)
    ensures req.user.Some? && req.user.value.id in old(repo.rows) ==>
      var id := req.user.value.id;
      var edited := MeEdited(old(repo.rows)[id], req.body);
      && (EmailTakenByOther(old(repo.rows), edited.email, id) || !Fits(edited) ==>
            reply == ServerError() && repo.rows == old(repo.rows))
      && (!EmailTakenByOther(old(repo.rows), edited.email, id) && Fits(edited) ==>
            repo.rows == old(repo.rows)[id := edited] && reply == Ok(Updated, MeDto(old(repo.rows)[id], req.body)))
    ensures AuthController.TokensBound(old(repo.rows)) ==> AuthController.TokensBound(repo.rows)
  {
    if req.user.None? {
      return ServerError();
    }
    var username, email := TextField(req.body, "username"), TextField(req.body, "email");
    var firstName, lastName := TextField(req.body, "firstName"), TextField(req.body, "lastName");
    var found := repo.First(ById(req.user.value.id));
    if found.None? {
      return ServerError();
    }
    var dto := Loaded(found.value);
    dto := dto.(firstName := OrElse(firstName, dto.row.first_name));
    dto := dto.(lastName := OrElse(lastName, dto.row.last_name));
    dto := dto.(row := dto.row.(username := OrElseText(username, dto.row.username)));
    dto := dto.(row := dto.row.(email := OrElseText(email, dto.row.email)));
    dto := dto.(createdAt := dto.row.created_at, isEnabled := FromText(dto.row.is_enabled));
    assert dto == MeDto(found.value, req.body);
    ghost var before := repo.rows;
    var ok := repo.Update(dto);
    if !ok {
      return ServerError();
    }
    assert repo.rows == before[found.value.id := MeEdited(found.value, req.body)];
    if AuthController.TokensBound(before) {
      AuthController.TransitionKeepsBound(before, found.value.id, MeEdited(found.value, req.body));
    }
    return Ok(Updated, dto);
  }
}
