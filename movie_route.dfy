/**
 * crud/movie/routes/movie_route.js: the movie endpoints and the middleware each one runs.
 */
module MovieRoute {
  import opened Values
  import opened Middleware
  import opened Router
  import opened FieldValidator
  import UserRepository
  import JwtValidator
  import MovieRoleValidator
  import DbAuthValidator
  import DbMovieValidator

  const CreateChecks: seq<Check> := [
    Check("title", "Title cannot be empty.", [NotEmpty]),
    Check("description", "Description cannot be empty.", [NotEmpty]),
    Check("type", "Type cannot be empty.", [NotEmpty]),
    Check("type", "Please, insert a valid type.", [TypeValid]),
    Check("trailerLink", "Trailer Link cannot be empty.", [NotEmpty])]

  /** The five routes in registration order. */
  const Routes: seq<Route> := [
    Route(POST, [], [ValidateJwt] + Validations(CreateChecks) + [ValidateFields, MovieGate(MovieRoleValidator.IsUserAllowedToSaveAndUpdate)], "create"),
    Route(GET, [], [ValidateJwt, MovieGate(MovieRoleValidator.IsUserAllowed)], "findAll"),
    Route(GET, [Param], [ValidateJwt, MovieGate(MovieRoleValidator.IsUserAllowed)], "findById"),
    Route(PUT, [Param], [ValidateJwt, MovieGate(MovieRoleValidator.IsUserAllowedToSaveAndUpdate), ValidateFields], "updateById"),
    Route(DELETE, [Param], [ValidateJwt, MovieGate(MovieRoleValidator.IsUserAdmin)], "deleteById")]

  /** Where each route's gate sits, and which gate it is; the JWT is validated first and only there. */
  lemma Shape(i: nat)
    requires i < |Routes|
    ensures Mountable(Routes)
    ensures Routes[i].chain[0] == ValidateJwt
    ensures forall j :: 0 < j < |Routes[i].chain| ==> Routes[i].chain[j] != ValidateJwt
    ensures i == 0 ==> |Routes[0].chain| == 8 && Routes[0].chain[7] == MovieGate(MovieRoleValidator.IsUserAllowedToSaveAndUpdate)
    ensures i in {1, 2} ==> Routes[i].chain[1] == MovieGate(MovieRoleValidator.IsUserAllowed)
    ensures i == 3 ==> Routes[i].chain[1] == MovieGate(MovieRoleValidator.IsUserAllowedToSaveAndUpdate)
    ensures i == 4 ==> Routes[i].chain[1] == MovieGate(MovieRoleValidator.IsUserAdmin)
  {
    assert forall j :: 0 <= j < |Routes[0].chain| ==> !Routes[0].chain[j].Missing?;
  }

  /**
   * The access policy: the GET routes admit MANAGER, ADMIN, EMPLOYEE and CUSTOMER; POST and
   * PUT admit MANAGER, ADMIN and EMPLOYEE; DELETE admits ADMIN. GUEST and DELETED_USER reach
   * no handler at all.
   */
  lemma AccessPolicy(i: nat, env: Env, repo: UserRepository.Repository)
    requires repo.Valid() && i < |Routes|
    ensures var q := Serve(Routes[i], env, repo);
      q.Going? ==>
        && q.user.Some?
        && JwtValidator.Resolve(env.token, repo.rows) == JwtValidator.Attach(q.user.value)
        && q.user.value.role !in {"GUEST", "DELETED_USER"}
        && (i in {1, 2} ==> q.user.value.role in DbAuthValidator.Names(MovieRoleValidator.AcceptSet(MovieRoleValidator.IsUserAllowed)))
        && (i in {0, 3} ==> q.user.value.role in DbAuthValidator.Names(MovieRoleValidator.AcceptSet(MovieRoleValidator.IsUserAllowedToSaveAndUpdate)))
        && (i == 4 ==> q.user.value.role == "ADMIN")
  {
    Shape(i);
    var chain := Routes[i].chain;
    HandlerPassedEveryGate(chain, Going(None, []), env, repo);
    var q := Serve(Routes[i], env, repo);
    if q.Going? {
      var g := if i == 0 then chain[7] else chain[1];
      assert GatePasses(g, q.user);
      MovieRoleValidator.RefusedRoles(q.user.value, g.m);
      if i == 4 {
        var r :| r in MovieRoleValidator.AcceptSet(MovieRoleValidator.IsUserAdmin) && DbAuthValidator.Name(r) == q.user.value.role;
      }
    }
  }

  /** POST / unfolded: the JWT, then the checks and `validateFields`, then the gate. */
  lemma CreateUnfolds(env: Env, repo: UserRepository.Repository)
    requires repo.Valid()
    ensures var o := JwtValidator.Resolve(env.token, repo.rows);
      var errs := AllFailures(CreateChecks, env.body, repo);
      var gate := [MovieGate(MovieRoleValidator.IsUserAllowedToSaveAndUpdate)];
      && (o.Refuse? ==> Serve(Routes[0], env, repo) == Stopped(Respond(401, o.msg)))
      && (o.Attach? ==>
            Serve(Routes[0], env, repo) == Run(gate, if |errs| == 0 then Going(Some(o.user), []) else Stopped(Invalid(errs)), env, repo))
  {
    var gate := [MovieGate(MovieRoleValidator.IsUserAllowedToSaveAndUpdate)];
    var middle := Validations(CreateChecks) + [ValidateFields];
    assert Routes[0].chain == [ValidateJwt] + (middle + gate);
    RunAppend([ValidateJwt], middle + gate, Going(None, []), env, repo);
    var o := JwtValidator.Resolve(env.token, repo.rows);
    var p := Run([ValidateJwt], Going(None, []), env, repo);
    assert p == Run([], Apply(ValidateJwt, None, [], env, repo), env, repo);
    if o.Attach? {
      assert p == Going(Some(o.user), []);
      RunAppend(middle, gate, p, env, repo);
      RunChecksThenValidate(CreateChecks, Some(o.user), env, repo);
    } else {
      assert p == Stopped(Respond(401, o.msg));
    }
  }

  /**
   * POST /: with a token that resolves, a body that fails any check is answered 400 with
   * the recorded errors before the role is looked at.
   */
  lemma InputErrorsBeforeRoleErrors(env: Env, repo: UserRepository.Repository)
    requires repo.Valid() && JwtValidator.Resolve(env.token, repo.rows).Attach?
    ensures var errs := AllFailures(CreateChecks, env.body, repo);
      |errs| > 0 ==> Serve(Routes[0], env, repo) == Stopped(Invalid(errs))
  {
    CreateUnfolds(env, repo);
  }

  /** POST /: a missing type, or one not in the type list, is such a body. */
  lemma UnlistedTypeIsRefused(env: Env, repo: UserRepository.Repository)
    requires repo.Valid() && JwtValidator.Resolve(env.token, repo.rows).Attach?
    requires DbMovieValidator.IsTypeValid(TextField(env.body, "type")).Rejected?
    ensures Serve(Routes[0], env, repo).Stopped? && Serve(Routes[0], env, repo).step.Invalid?
  {
    TypeCheckRefuses(env.body, repo);
    InputErrorsBeforeRoleErrors(env, repo);
  }

  /** The type check records an error for a missing or unlisted type. */
  lemma TypeCheckRefuses(body: Body, repo: UserRepository.Repository)
    requires repo.Valid() && DbMovieValidator.IsTypeValid(TextField(body, "type")).Rejected?
    ensures |AllFailures(CreateChecks, body, repo)| > 0
  {
    var c := CreateChecks[3];
    assert c == Check("type", "Please, insert a valid type.", [TypeValid]);
    TypeValidPasses(Field(body, "type"), repo);
    CheckPasses(c, body, repo);
  }

  /**
   * PUT /:id gates on role before `validateFields`, and as no check precedes it, that
   * `validateFields` never blocks: the handler is reached exactly when JWT and gate pass.
   */
  lemma UpdateGatesBeforeValidateFields(env: Env, repo: UserRepository.Repository)
    requires repo.Valid()
    ensures Routes[3].chain == [ValidateJwt, MovieGate(MovieRoleValidator.IsUserAllowedToSaveAndUpdate), ValidateFields]
    ensures Serve(Routes[3], env, repo).Going? <==>
      && JwtValidator.Resolve(env.token, repo.rows).Attach?
      && MovieRoleValidator.Gate(MovieRoleValidator.IsUserAllowedToSaveAndUpdate, Some(JwtValidator.Resolve(env.token, repo.rows).user)) == Next
  {
    var chain := Routes[3].chain;
    var o := JwtValidator.Resolve(env.token, repo.rows);
    var q := Serve(Routes[3], env, repo);
    assert chain[1..] == [chain[1], chain[2]] && chain[1..][1..] == [ValidateFields] && chain[1..][1..][1..] == [];
    assert q == Run(chain[1..], Apply(ValidateJwt, None, [], env, repo), env, repo);
    if o.Attach? {
      var s := MovieRoleValidator.Gate(MovieRoleValidator.IsUserAllowedToSaveAndUpdate, Some(o.user));
      assert q == Run(chain[1..][1..], Gated(s, Some(o.user), []), env, repo);
      if s == Next {
        assert q == Run(chain[1..][1..][1..], Apply(ValidateFields, Some(o.user), [], env, repo), env, repo);
      }
    }
  }
}
