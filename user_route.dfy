/**
 * core/routes/user_route.js: the user endpoints and the middleware each one runs.
 * The role gates are imported from core/middleware/role_validator.js, which does not
 * export `isUserAllowed` or `isUserMeAllowed`; those two are defined in
 * core/middleware/user_role_validator.js.
 */
module UserRoute {
  import opened Values
  import opened Router
  import UserModel
  import opened Middleware
  import UserRepository
  import FieldValidator
  import JwtValidator
  import UserRoleValidator
  import RoleValidator
  import DbAuthValidator

  /** A name imported from role_validator as written: `undefined` where the module does not export it. */
  function ImportAsWritten(name: string): Link
  {
    match RoleValidator.Export(name)
    case Some(g) => RoleGate(g)
    case None => Missing(name)
  }

  /** The evidently intended imports: names role_validator lacks come from user_role_validator. */
  function Import(name: string): Link
  {
    match RoleValidator.Export(name)
    case Some(g) => RoleGate(g)
    case None =>
      match UserRoleValidator.Export(name)
      case Some(g) => UserGate(g)
      case None => Missing(name)
  }

  const RoleCheck := FieldValidator.Check("role", "Please, insert a valid role.", [FieldValidator.RoleValid])
  const IsEnabledCheck := FieldValidator.Check("isEnabled", "Please, insert true or false.", [FieldValidator.IsBoolean])

  /** The six routes in registration order, with the gates looked up by name. */
  function Table(gate: string -> Link): seq<Route>
  {
    [ Route(GET, [], [ValidateJwt, gate("isUserAllowed")], "findAll"),
      Route(GET, [Lit("me")], [ValidateJwt, gate("isUserMeAllowed")], "findMe"),
      Route(GET, [Param], [ValidateJwt, gate("isUserAllowed")], "findById"),
      Route(PUT, [Lit("me")], [ValidateJwt, gate("isUserMeAllowed"), ValidateFields], "updateMe"),
      Route(PUT, [Param], [ValidateJwt, gate("isUserAllowed"), Validate(RoleCheck), Validate(IsEnabledCheck)], "updateById"),
      Route(DELETE, [Param], [ValidateJwt, gate("isUserAdmin")], "deleteById") ]
  }

  const RoutesAsWritten := Table(ImportAsWritten)
  const Routes := Table(Import)

  /** As written, the routers's first route holds `undefined`, so the module cannot load. */
  lemma AsWrittenNotMountable()
    ensures RoutesAsWritten[0].chain[1] == Missing("isUserAllowed")
    ensures RoutesAsWritten[1].chain[1] == Missing("isUserMeAllowed")
    ensures !Mountable(RoutesAsWritten)
  {
    assert RoleValidator.Export("isUserAllowed").None?;
    assert RoutesAsWritten[0].chain[1].Missing?;
    assert !Registrable(RoutesAsWritten[0]);
  }

  /** With the intended imports every route registers, and these are its gates. */
  lemma RoutesMountable()
    ensures Mountable(Routes)
    ensures Routes[0].chain[1] == UserGate(UserRoleValidator.IsUserAllowed)
    ensures Routes[1].chain[1] == UserGate(UserRoleValidator.IsUserMeAllowed)
    ensures Routes[2].chain[1] == UserGate(UserRoleValidator.IsUserAllowed)
    ensures Routes[3].chain[1] == UserGate(UserRoleValidator.IsUserMeAllowed)
    ensures Routes[4].chain[1] == UserGate(UserRoleValidator.IsUserAllowed)
    ensures Routes[5].chain[1] == RoleGate(RoleValidator.IsUserAdmin)
  {
    forall i | 0 <= i < |Routes| ensures Registrable(Routes[i]) {
      assert forall j :: 0 <= j < |Routes[i].chain| ==> !Routes[i].chain[j].Missing?;
    }
  }

  /** Every route validates the JWT first, and nowhere else. */
  lemma JwtFirst(i: nat)
    requires i < |Routes|
    ensures |Routes[i].chain| >= 2 && Routes[i].chain[0] == ValidateJwt
    ensures forall j :: 0 < j < |Routes[i].chain| ==> Routes[i].chain[j] != ValidateJwt
  {
    RoutesMountable();
  }

  /**
   * The access policy: GET /, GET /:id and PUT /:id reach their handler only for MANAGER
   * and ADMIN; GET /me and PUT /me for every role but GUEST and DELETED_USER; DELETE /:id
   * only for ADMIN. In each case the principal is the one the token resolves to.
   */
  lemma AccessPolicy(i: nat, env: Env, repo: UserRepository.Repository)
    requires repo.Valid() && i < |Routes|
    ensures var q := Serve(Routes[i], env, repo);
      q.Going? ==>
        && q.user.Some?
        && JwtValidator.Resolve(env.token, repo.rows) == JwtValidator.Attach(q.user.value)
        && (i in {0, 2, 4} ==> q.user.value.role in DbAuthValidator.Names({DbAuthValidator.MANAGER, DbAuthValidator.ADMIN}))
        && (i in {1, 3} ==> q.user.value.role !in {"GUEST", "DELETED_USER"} && q.user.value.role in DbAuthValidator.ROLES)
        && (i == 5 ==> q.user.value.role == "ADMIN")
  {
    JwtFirst(i);
    RoutesMountable();
    var chain := Routes[i].chain;
    HandlerPassedEveryGate(chain, Going(None, []), env, repo);
    var q := Serve(Routes[i], env, repo);
    if q.Going? {
      assert GatePasses(chain[1], q.user);
      if i in {1, 3} {
        MeGateRoles(q.user.value);
      }
    }
  }

  /** The roles `isUserMeAllowed` passes are listed roles other than GUEST and DELETED_USER. */
  lemma MeGateRoles(u: UserModel.UserRow)
    requires UserRoleValidator.Gate(UserRoleValidator.IsUserMeAllowed, Some(u)) == Next
    ensures u.role !in {"GUEST", "DELETED_USER"} && u.role in DbAuthValidator.ROLES
  {
    var r :| r in UserRoleValidator.AcceptSet(UserRoleValidator.IsUserMeAllowed) && DbAuthValidator.Name(r) == u.role;
    DbAuthValidator.RolesAreTheEnumeration();
  }

  /** `/me` is registered before `/:id`, so "me" reaches findMe and updateMe, and an id reaches findById. */
  lemma MeBeforeId()
    ensures Dispatch(Routes, GET, ["me"]) == Some(1) && Routes[1].handler == "findMe"
    ensures Dispatch(Routes, PUT, ["me"]) == Some(3) && Routes[3].handler == "updateMe"
    ensures Dispatch(Routes, GET, ["7"]) == Some(2) && Routes[2].handler == "findById"
    ensures Dispatch(Routes, DELETE, ["me"]) == Some(5)
  {
    assert RouteMatches(Routes[1], GET, ["me"]);
    assert !RouteMatches(Routes[0], GET, ["me"]);
    assert RouteMatches(Routes[3], PUT, ["me"]);
    assert RouteMatches(Routes[2], GET, ["7"]);
    assert Routes[1].pattern[0] == Lit("me") && ["7"][0] != "me";
    assert !RouteMatches(Routes[1], GET, ["7"]);
    assert RouteMatches(Routes[5], DELETE, ["me"]);
  }

  /**
   * PUT /:id declares the role and isEnabled checks but has no `validateFields`: the
   * handler is reached whatever they record, exactly when the JWT and the gate pass.
   */
  lemma UpdateByIdChecksDoNotBlock(env: Env, repo: UserRepository.Repository)
    requires repo.Valid()
    ensures Serve(Routes[4], env, repo).Going? <==>
      && JwtValidator.Resolve(env.token, repo.rows).Attach?
      && UserRoleValidator.Gate(UserRoleValidator.IsUserAllowed, Some(JwtValidator.Resolve(env.token, repo.rows).user)) == Next
  {
    RoutesMountable();
    var head := [ValidateJwt, UserGate(UserRoleValidator.IsUserAllowed)];
    var checks := [RoleCheck, IsEnabledCheck];
    assert Validations(checks) == [Validate(RoleCheck), Validate(IsEnabledCheck)];
    assert Routes[4].chain == head + Validations(checks);
    RunAppend(head, Validations(checks), Going(None, []), env, repo);
    var mid := Run(head, Going(None, []), env, repo);
    var o := JwtValidator.Resolve(env.token, repo.rows);
    assert head[1..] == [UserGate(UserRoleValidator.IsUserAllowed)] && head[1..][1..] == [];
    assert mid == Run(head[1..], Apply(ValidateJwt, None, [], env, repo), env, repo);
    if o.Attach? {
      assert Apply(ValidateJwt, None, [], env, repo) == Going(Some(o.user), []);
      assert mid == Run(head[1..][1..], Apply(UserGate(UserRoleValidator.IsUserAllowed), Some(o.user), [], env, repo), env, repo);
      assert mid == Gated(UserRoleValidator.Gate(UserRoleValidator.IsUserAllowed, Some(o.user)), Some(o.user), []);
    } else {
      assert mid == Stopped(Middleware.Respond(401, o.msg));
    }
    if mid.Going? {
      RunChecks(checks, mid.user, mid.errors, env, repo);
    }
  }
}
