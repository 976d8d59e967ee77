/**
 * core/routes/auth_route.js: the six unauthenticated endpoints. None of them validates a
 * JWT or gates on a role; only login and register close their checks with `validateFields`.
 */
module AuthRoute {
  import opened Values
  import opened Middleware
  import opened Router
  import opened FieldValidator
  import UserRepository
  import DbAuthValidator

  const PasswordRule := Check("password", "Password must be alphanumeric and at least 8 characters long.", [MinLength(8), Alphanumeric])
  const EmailRule := Check("email", "Invalid email.", [IsEmail])

  const LoginChecks: seq<Check> := [
    Check("username", "Username cannot be empty.", [NotEmpty]),
    Check("password", "Password is required.", [NotEmpty])]

  const RegisterChecks: seq<Check> := [
    Check("firstName", "First name cannot be empty.", [NotEmpty]),
    Check("lastName", "Last name cannot be empty.", [NotEmpty]),
    Check("username", "Username cannot be empty.", [NotEmpty]),
    Check("username", "Invalid value", [UsernameUnique]),
    PasswordRule,
    EmailRule,
    Check("email", "Invalid value", [EmailUnique])]

  const ResetChecks: seq<Check> := [PasswordRule, Check("resetPasswordToken", "Invalid token.", [MinLength(8)])]
  const VerifyChecks: seq<Check> := [Check("verifyToken", "Invalid token.", [MinLength(8)])]

  /** The checks each route declares, in route order. */
  const Checks: seq<seq<Check>> := [LoginChecks, RegisterChecks, [EmailRule], ResetChecks, [EmailRule], VerifyChecks]

  /** The six routes in registration order. */
  const Routes: seq<Route> := [
    Route(POST, [Lit("login")], Validations(LoginChecks) + [ValidateFields], "login"),
    Route(POST, [Lit("register")], Validations(RegisterChecks) + [ValidateFields], "register"),
    Route(POST, [Lit("forgot-password")], Validations([EmailRule]), "forgotPassword"),
    Route(POST, [Lit("reset-password")], Validations(ResetChecks), "resetPassword"),
    Route(POST, [Lit("request-verify-token")], Validations([EmailRule]), "requestVerifyToken"),
    Route(POST, [Lit("verify-token")], Validations(VerifyChecks), "verifyToken")]

  /** Every route registers, and its chain holds nothing but checks and `validateFields`. */
  lemma NoJwtNoGate(i: nat)
    requires i < |Routes|
    ensures Mountable(Routes)
    ensures forall j :: 0 <= j < |Routes[i].chain| ==> Routes[i].chain[j].Validate? || Routes[i].chain[j] == ValidateFields
  {
    forall k | 0 <= k < |Routes| ensures Registrable(Routes[k]) {
      assert forall j :: 0 <= j < |Routes[k].chain| ==> Routes[k].chain[j].Validate? || Routes[k].chain[j] == ValidateFields;
    }
  }

  /** A request reaches an auth handler with no principal attached. */
  lemma NoPrincipal(i: nat, env: Env, repo: UserRepository.Repository)
    requires repo.Valid() && i < |Routes|
    ensures Serve(Routes[i], env, repo).Going? ==> Serve(Routes[i], env, repo).user.None?
  {
    NoJwtNoGate(i);
    HandlerPassedEveryGate(Routes[i].chain, Going(None, []), env, repo);
  }

  /** login: answered 400 with the errors unless both the username and the password are non-empty. */
  lemma LoginAdmission(env: Env, repo: UserRepository.Repository)
    requires repo.Valid()
    ensures var errs := AllFailures(LoginChecks, env.body, repo);
      Serve(Routes[0], env, repo) == if |errs| == 0 then Going(None, []) else Stopped(Invalid(errs))
    ensures Serve(Routes[0], env, repo).Going? <==>
      AsString(Field(env.body, "username")) != "" && AsString(Field(env.body, "password")) != ""
  {
    RunChecksThenValidate(LoginChecks, None, env, repo);
    assert forall i :: 0 <= i < |LoginChecks| ==> LoginChecks[i].rules == [NotEmpty];
  }

  /** What register's checks accept, stated on the body and the table. */
  predicate RegisterAccepts(body: Body, rows: map<nat, UserModel.UserRow>)
  {
    var password := AsString(Field(body, "password"));
    && AsString(Field(body, "firstName")) != ""
    && AsString(Field(body, "lastName")) != ""
    && AsString(Field(body, "username")) != ""
    && (forall k :: k in rows ==> Some(rows[k].username) != Text(Field(body, "username")))
    && |password| >= 8 && (forall i :: 0 <= i < |password| ==> IsAlphanumericChar(password[i]))
    && LooksLikeEmail(AsString(Field(body, "email")))
    && (forall k :: k in rows ==> Some(rows[k].email) != Text(Field(body, "email")))
  }

  /** register: reached exactly when every check passes; otherwise 400 with all recorded errors. */
  lemma RegisterAdmission(env: Env, repo: UserRepository.Repository)
    requires repo.Valid()
    ensures var errs := AllFailures(RegisterChecks, env.body, repo);
      Serve(Routes[1], env, repo) == if |errs| == 0 then Going(None, []) else Stopped(Invalid(errs))
    ensures Serve(Routes[1], env, repo).Going? <==> RegisterAccepts(env.body, repo.rows)
  {
    assert Routes[1].chain == Validations(RegisterChecks) + [ValidateFields];
    RunChecksThenValidate(RegisterChecks, None, env, repo);
    RegisterChecksAccept(env.body, repo);
    RegisterAcceptsByCheck(env.body, repo.rows);
  }

  /** Check by check, what register's checks accept. */
  lemma RegisterChecksAccept(body: Body, repo: UserRepository.Repository)
    requires repo.Valid()
    ensures forall i :: 0 <= i < |RegisterChecks| ==>
      (|CheckFailures(RegisterChecks[i], body, repo)| == 0 <==> AcceptsCheck(i, body, repo.rows))
  {
    forall i | 0 <= i < |RegisterChecks|
      ensures |CheckFailures(RegisterChecks[i], body, repo)| == 0 <==> AcceptsCheck(i, body, repo.rows)
    {
      RegisterCheckAccepts(i, body, repo);
    }
  }

  lemma RegisterCheckAccepts(i: nat, body: Body, repo: UserRepository.Repository)
    requires repo.Valid() && i < |RegisterChecks|
    ensures |CheckFailures(RegisterChecks[i], body, repo)| == 0 <==> AcceptsCheck(i, body, repo.rows)
  {
    var c := RegisterChecks[i];
    CheckPasses(c, body, repo);
    var v := Field(body, c.field);
    if i == 3 {
      assert Passes(UsernameUnique, v, repo) <==> DbAuthValidator.IsUsernameUnique(repo, Text(v)).Accepted?;
    } else if i == 6 {
      assert Passes(EmailUnique, v, repo) <==> DbAuthValidator.IsEmailUnique(repo, Text(v)).Accepted?;
    }
  }

  lemma RegisterAcceptsByCheck(body: Body, rows: map<nat, UserModel.UserRow>)
    ensures RegisterAccepts(body, rows) <==> forall i :: 0 <= i < 7 ==> AcceptsCheck(i, body, rows)
  {
    if forall i :: 0 <= i < 7 ==> AcceptsCheck(i, body, rows) {
      assert AcceptsCheck(0, body, rows) && AcceptsCheck(1, body, rows) && AcceptsCheck(2, body, rows);
      assert AcceptsCheck(3, body, rows) && AcceptsCheck(4, body, rows) && AcceptsCheck(5, body, rows);
      assert AcceptsCheck(6, body, rows);
    }
  }

  /** The condition register's check `i` states. */
  predicate AcceptsCheck(i: nat, body: Body, rows: map<nat, UserModel.UserRow>)
  {
    var password := AsString(Field(body, "password"));
    match i
    case 0 => AsString(Field(body, "firstName")) != ""
    case 1 => AsString(Field(body, "lastName")) != ""
    case 2 => AsString(Field(body, "username")) != ""
    case 3 => forall k :: k in rows ==> Some(rows[k].username) != Text(Field(body, "username"))
    case 4 => |password| >= 8 && (forall j :: 0 <= j < |password| ==> IsAlphanumericChar(password[j]))
    case 5 => LooksLikeEmail(AsString(Field(body, "email")))
    case _ => forall k :: k in rows ==> Some(rows[k].email) != Text(Field(body, "email"))
  }

  /**
   * forgot-password, reset-password, request-verify-token and verify-token have no
   * `validateFields`: the handler is always reached, whatever the checks record.
   */
  lemma ChecksDoNotBlock(i: nat, env: Env, repo: UserRepository.Repository)
    requires repo.Valid() && 2 <= i < |Routes|
    ensures Serve(Routes[i], env, repo) == Going(None, AllFailures(Checks[i], env.body, repo))
  {
    assert Routes[i].chain == Validations(Checks[i]);
    RunChecks(Checks[i], None, [], env, repo);
    assert [] + AllFailures(Checks[i], env.body, repo) == AllFailures(Checks[i], env.body, repo);
  }

  /** What reset-password's ignored checks would have asked for: a valid password and a token of 8 or more characters. */
  lemma ResetChecksRecord(env: Env, repo: UserRepository.Repository)
    requires repo.Valid()
    ensures var password := AsString(Field(env.body, "password"));
      |AllFailures(ResetChecks, env.body, repo)| == 0 <==>
        && |password| >= 8 && (forall i :: 0 <= i < |password| ==> IsAlphanumericChar(password[i]))
        && |AsString(Field(env.body, "resetPasswordToken"))| >= 8
  {
    CheckPasses(ResetChecks[0], env.body, repo);
    CheckPasses(ResetChecks[1], env.body, repo);
  }
}
