/**
 * core/controller/auth_controller.js: login, registration and the two single-use token
 * flows (password reset, account verification) over the users table.
 *
 * Each handler loads a row, sets properties on the loaded object one at a time and
 * hands it back to `update`. Because `update` reads the camel-case token properties,
 * a handler that does not set one of them writes NULL for it.
 */
module AuthController {
  import opened Values
  import opened Decimal
  import opened UserModel
  import opened Middleware
  import opened UserRepository
  import opened Tables
  import Bcrypt
  import JwtGenerator

  // ---------------------------------------------------------------- single-use tokens

  /**
   * `user.id + Math.floor(Math.random() * 10000000).toString().padStart(7, "0")`,
   * with the random draw given as `n`.
   */
  function SingleUseToken(id: nat, n: nat): string
    requires n < Pow10(7)
  {
    NumberToString(id) + PadStart(NumberToString(n), 7, '0')
  }

  /** The id a token was issued for: everything before its last seven characters. */
  function TokenOwner(t: string): Option<nat>
  {
    if |t| < 8 then None else ParseNat(t[..|t| - 7])
  }

  /** An issued token has at least eight characters and names the id it was issued for. */
  lemma SingleUseTokenOwner(id: nat, n: nat)
    requires n < Pow10(7)
    ensures |SingleUseToken(id, n)| == |NumberToString(id)| + 7 >= 8
    ensures TokenOwner(SingleUseToken(id, n)) == Some(id)
  {
    NumberToStringLength(n, 7);
    var t := SingleUseToken(id, n);
    assert t[..|t| - 7] == NumberToString(id);
    ParseNumberToString(id);
  }

  /** An issued token for an `integer` id has at most 17 characters, so it fits its column. */
  lemma SingleUseTokenFits(id: nat, n: nat)
    requires id <= MaxInt4 && n < Pow10(7)
    ensures |SingleUseToken(id, n)| <= 17
    ensures FitsVarchar(SingleUseToken(id, n))
  {
    assert Pow10(10) == 10000000000;
    NumberToStringLength(id, 10);
    NumberToStringLength(n, 7);
  }

  /** Tokens issued for different users differ, whatever the random draws. */
  lemma SingleUseTokensDistinct(a: nat, m: nat, b: nat, n: nat)
    requires m < Pow10(7) && n < Pow10(7) && a != b
    ensures SingleUseToken(a, m) != SingleUseToken(b, n)
  {
    SingleUseTokenOwner(a, m);
    SingleUseTokenOwner(b, n);
  }

  /** A row whose stored tokens were issued for that row's own id. */
  predicate Bound(k: nat, r: UserRow)
  {
    && (r.reset_password_token.Some? ==> TokenOwner(r.reset_password_token.value) == Some(k))
    && (r.verify_token.Some? ==> TokenOwner(r.verify_token.value) == Some(k))
  }

  /** Every stored token was issued for the row holding it. All handlers keep this. */
  ghost predicate TokensBound(rows: map<nat, UserRow>)
  {
    forall k :: k in rows ==> Bound(k, rows[k])
  }

  /** Under TokensBound a token is held by at most one row. */
  lemma AtMostOneHolder(rows: map<nat, UserRow>, t: Option<string>, a: nat, b: nat)
    requires TokensBound(rows) && a in rows && b in rows
    ensures Matches(rows[a], ByResetPasswordToken(t)) && Matches(rows[b], ByResetPasswordToken(t)) ==> a == b
    ensures Matches(rows[a], ByVerifyToken(t)) && Matches(rows[b], ByVerifyToken(t)) ==> a == b
  {
    assert Bound(a, rows[a]) && Bound(b, rows[b]);
  }

  /**
   * Once the row holding a reset token is rewritten without one, no row matches that
   * token any longer: a replayed reset finds nothing.
   */
  lemma ResetTokenConsumed(rows: map<nat, UserRow>, k: nat, r: UserRow)
    requires TokensBound(rows) && k in rows && rows[k].reset_password_token.Some?
    requires r.reset_password_token == None
    ensures Matching(rows[k := r], ByResetPasswordToken(rows[k].reset_password_token)) == map[]
  {
    var q := ByResetPasswordToken(rows[k].reset_password_token);
    var updated := rows[k := r];
    forall j | j in updated ensures !Matches(updated[j], q) {
      if j != k && Matches(rows[j], q) {
        AtMostOneHolder(rows, rows[k].reset_password_token, j, k);
      }
    }
  }

  /** The same for verify tokens: a replayed verification finds nothing. */
  lemma VerifyTokenConsumed(rows: map<nat, UserRow>, k: nat, r: UserRow)
    requires TokensBound(rows) && k in rows && rows[k].verify_token.Some?
    requires r.verify_token == None
    ensures Matching(rows[k := r], ByVerifyToken(rows[k].verify_token)) == map[]
  {
    var q := ByVerifyToken(rows[k].verify_token);
    var updated := rows[k := r];
    forall j | j in updated ensures !Matches(updated[j], q) {
      if j != k && Matches(rows[j], q) {
        AtMostOneHolder(rows, rows[k].verify_token, j, k);
      }
    }
  }

  // ---------------------------------------------------------------- row transitions

  /** What `forgotPassword` leaves in the row: the new reset token, and NULL for the verify token it never set. */
  function IssueResetToken(r: UserRow, token: string): UserRow
  {
    r.(reset_password_token := Some(token), verify_token := None)
  }

  /** What `resetPassword` leaves: the new digest and no token of either kind. */
  function CompletePasswordReset(r: UserRow, digest: string): UserRow
  {
    r.(password := digest, reset_password_token := None, verify_token := None)
  }

  /** What `requestVerifyToken` leaves: the new verify token, and NULL for the reset token. */
  function IssueVerifyToken(r: UserRow, token: string): UserRow
  {
    r.(verify_token := Some(token), reset_password_token := None)
  }

  /** What `verifyToken` leaves: role CUSTOMER whatever it was, and no token of either kind. */
  function CompleteVerification(r: UserRow): UserRow
  {
    r.(role := "CUSTOMER", verify_token := None, reset_password_token := None)
  }

  /** Writing a token-free row, or a token issued for the row's own id, keeps every token bound. */
  lemma TransitionKeepsBound(rows: map<nat, UserRow>, k: nat, r: UserRow)
    requires TokensBound(rows) && Bound(k, r)
    ensures TokensBound(rows[k := r])
  {
  }

  lemma IssuedRowBound(r: UserRow, n: nat)
    requires n < Pow10(7)
    ensures Bound(r.id, IssueResetToken(r, SingleUseToken(r.id, n)))
    ensures Bound(r.id, IssueVerifyToken(r, SingleUseToken(r.id, n)))
  {
    SingleUseTokenOwner(r.id, n);
  }

  // ---------------------------------------------------------------- handlers

  /** The payload of a successful login. */
  datatype LoginPayload = LoginPayload(user: UserObject, bearerToken: string)

  /** The loaded object after login's four property copies. */
  function LoginUser(row: UserRow): UserObject
  {
    WithAliases(Loaded(row)).(isEnabled := FromText(row.is_enabled))
  }

  /**
   * `login`. An unknown username makes the first property copy throw, so the `!user`
   * check is never reached and the answer is 500. A missing password makes
   * `compareSync` throw: 500 as well.
   */
  method Login(req: Request, repo: Repository) returns (reply: Reply<LoginPayload>)
    requires repo.Valid()
    ensures var found := repo.First(ByUsername(TextField(req.body, "username")));
      var password := TextField(req.body, "password");
      && (found.None? ==> reply == ServerError())
      && (found.Some? && !Present(found.value.is_enabled) ==> reply == Json(400, "Invalid username or password b.", None))
      && (found.Some? && Present(found.value.is_enabled) && password.None? ==> reply == ServerError())
      && (found.Some? && Present(found.value.is_enabled) && password.Some? && !Bcrypt.CompareSync(password.value, found.value.password) ==>
            reply == Json(400, "Invalid username or password c.", None))
      && (found.Some? && Present(found.value.is_enabled) && password.Some? && Bcrypt.CompareSync(password.value, found.value.password) ==>
            reply == Ok("Login succeeded", LoginPayload(LoginUser(found.value), JwtGenerator.GenerateJwt(found.value.id))))
    ensures reply.Json? && reply.status == 200 ==>
      && reply.payload.Some?
      && var u := reply.payload.value.user.row;
      && u.id in repo.rows && repo.rows[u.id] == u
      && Some(u.username) == TextField(req.body, "username")
      && TextField(req.body, "password").Some? && Bcrypt.CompareSync(TextField(req.body, "password").value, u.password)
      && JwtGenerator.Verify(reply.payload.value.bearerToken) == Some(u.id)
  {
    var username, password := TextField(req.body, "username"), TextField(req.body, "password");
    var found := repo.First(ByUsername(username));
    if found.None? {
      // `user.first_name` on undefined throws before the `!user` check.
      return ServerError();
    }
    var user := LoginUser(found.value);
    if !Truthy(user.isEnabled) {
      return Json(400, "Invalid username or password b.", None);
    }
    if password.None? {
      return ServerError();
    }
    var validPassword := Bcrypt.CompareSync(password.value, user.row.password);
    if !validPassword {
      return Json(400, "Invalid username or password c.", None);
    }
    var bearerToken := JwtGenerator.GenerateJwt(user.row.id);
    JwtGenerator.VerifyGenerated(user.row.id);
    return Ok("Login succeeded", LoginPayload(user, bearerToken));
  }

  /** The object `register` hands to `save`, once the password has been replaced by its digest. */
  function Applicant(body: Body, digest: string, now: int): NewUser
  {
    NewUser(TextField(body, "username"), TextField(body, "email"), digest,
            TextField(body, "firstName"), TextField(body, "lastName"), "GUEST", now)
  }

  /**
   * `register`, with `new Date()` given as `now`. There is no try/catch: a missing
   * password (hashSync throws) or a rejected INSERT is an unhandled rejection, and no
   * response is sent.
   */
  method Register(req: Request, repo: Repository, now: int) returns (reply: Reply<NewUser>)
    requires repo.Valid()
    modifies repo
    ensures repo.Valid()
    ensures TextField(req.body, "password").None? ==>
      reply == Unanswered && repo.rows == old(repo.rows) && repo.nextId == old(repo.nextId)
    ensures TextField(req.body, "password").Some? ==>
      var u := Applicant(req.body, Bcrypt.HashSync(TextField(req.body, "password").value), now);
      var accepted := && old(repo.nextId) <= MaxInt4 && u.username.Some? && u.email.Some?
                      && !(exists k :: k in old(repo.rows) && Some(old(repo.rows)[k].email) == u.email)
                      && FitsVarchar(u.username.value) && FitsVarchar(u.email.value)
                      && FitsVarcharOrNull(u.firstName) && FitsVarcharOrNull(u.lastName);
      && repo.nextId == NextSerial(old(repo.nextId))
      && (accepted ==> repo.rows == old(repo.rows)[old(repo.nextId) := Inserted(old(repo.nextId), u)]
                       && reply == Ok("User registered successfully.", u))
      && (!accepted ==> repo.rows == old(repo.rows) && reply == Unanswered)
    ensures reply.Json? ==>
      && old(repo.nextId) in repo.rows
      && repo.rows[old(repo.nextId)].role == "GUEST"
      && repo.rows[old(repo.nextId)].password == Bcrypt.HashSync(TextField(req.body, "password").value)
      && repo.rows[old(repo.nextId)].password != TextField(req.body, "password").value
    ensures TokensBound(old(repo.rows)) ==> TokensBound(repo.rows)
  {
    var password := TextField(req.body, "password");
    if password.None? {
      return Unanswered;
    }
    var user := Applicant(req.body, Bcrypt.HashSync(password.value), now);
    ghost var before := repo.rows;
    var ok := repo.Save(user);
    if !ok {
      return Unanswered;
    }
    if TokensBound(before) {
      TransitionKeepsBound(before, old(repo.nextId), Inserted(old(repo.nextId), user));
    }
    return Ok("User registered successfully.", user);
  }

  /**
   * `forgotPassword`, with the random draw given as `n`. An unknown email makes the
   * first property copy throw: 500 and no write. The un-awaited `update` is taken to
   * complete before the response.
   */
  method ForgotPassword(req: Request, repo: Repository, n: nat) returns (reply: Reply<UserObject>)
    requires repo.Valid() && n < Pow10(7)
    modifies repo
    ensures repo.Valid() && repo.nextId == old(repo.nextId)
    ensures var found := old(repo.First(ByEmail(TextField(req.body, "email"))));
      && (found.None? ==> reply == ServerError() && repo.rows == old(repo.rows))
      && (found.Some? ==>
            var t := SingleUseToken(found.value.id, n);
            && repo.rows == old(repo.rows)[found.value.id := IssueResetToken(found.value, t)]
            && reply == Ok("Forgot password triggered successfully.", WithAliases(Loaded(found.value)).(resetPasswordToken := Some(t))))
    ensures TokensBound(old(repo.rows)) ==> TokensBound(repo.rows)
  {
    var found := repo.First(ByEmail(TextField(req.body, "email")));
    if found.None? {
      return ServerError();
    }
    var user := WithAliases(Loaded(found.value));
    var resetPasswordToken := SingleUseToken(user.row.id, n);
    SingleUseTokenOwner(user.row.id, n);
    SingleUseTokenFits(user.row.id, n);
    user := user.(resetPasswordToken := Some(resetPasswordToken));
    ghost var before := repo.rows;
    OwnEmailFree(before, user.row.id, user.row.email);
    var _ := repo.Update(user);
    assert repo.rows == before[user.row.id := IssueResetToken(found.value, resetPasswordToken)];
    if TokensBound(before) {
      IssuedRowBound(found.value, n);
      TransitionKeepsBound(before, user.row.id, IssueResetToken(found.value, resetPasswordToken));
    }
    return Ok("Forgot password triggered successfully.", user);
  }

  /**
   * `resetPassword`. A token no row holds makes the first property copy throw, so the
   * 400 "Invalid token." branch is never reached: 500. A missing password makes
   * `hashSync` throw: 500 and no write.
   */
  method ResetPassword(req: Request, repo: Repository) returns (reply: Reply<UserObject>)
    requires repo.Valid()
    modifies repo
    ensures repo.Valid() && repo.nextId == old(repo.nextId)
    ensures var found := old(repo.First(ByResetPasswordToken(TextField(req.body, "resetPasswordToken"))));
      var password := TextField(req.body, "password");
      && (found.None? || password.None? ==> reply == ServerError() && repo.rows == old(repo.rows))
      && (found.Some? && password.Some? ==>
            var digest := Bcrypt.HashSync(password.value);
            && repo.rows == old(repo.rows)[found.value.id := CompletePasswordReset(found.value, digest)]
            && reply == Ok("Password changed successfully.", WithAliases(Loaded(found.value.(password := digest)))))
    ensures TokensBound(old(repo.rows)) ==> TokensBound(repo.rows)
    ensures TokensBound(old(repo.rows)) && reply.Json? && reply.status == 200 ==>
      repo.First(ByResetPasswordToken(TextField(req.body, "resetPasswordToken"))).None?
  {
    var token := TextField(req.body, "resetPasswordToken");
    var found := repo.First(ByResetPasswordToken(token));
    if found.None? {
      return ServerError();
    }
    var user := WithAliases(Loaded(found.value));
    var password := TextField(req.body, "password");
    if password.None? {
      return ServerError();
    }
    user := user.(row := user.row.(password := Bcrypt.HashSync(password.value)));
    user := user.(resetPasswordToken := None);
    ghost var before := repo.rows;
    ghost var after := CompletePasswordReset(found.value, Bcrypt.HashSync(password.value));
    OwnEmailFree(before, user.row.id, user.row.email);
    var _ := repo.Update(user);
    assert repo.rows == before[found.value.id := after];
    if TokensBound(before) {
      TransitionKeepsBound(before, found.value.id, after);
      ResetTokenConsumed(before, found.value.id, after);
    }
    return Ok("Password changed successfully.", user);
  }

  /** `requestVerifyToken`, with the random draw given as `n`; the counterpart of `forgotPassword`. */
  method RequestVerifyToken(req: Request, repo: Repository, n: nat) returns (reply: Reply<UserObject>)
    requires repo.Valid() && n < Pow10(7)
    modifies repo
    ensures repo.Valid() && repo.nextId == old(repo.nextId)
    ensures var found := old(repo.First(ByEmail(TextField(req.body, "email"))));
      && (found.None? ==> reply == ServerError() && repo.rows == old(repo.rows))
      && (found.Some? ==>
            var t := SingleUseToken(found.value.id, n);
            && repo.rows == old(repo.rows)[found.value.id := IssueVerifyToken(found.value, t)]
            && reply == Ok("Verify token generated successfully.", WithAliases(Loaded(found.value)).(verifyToken := Some(t))))
    ensures TokensBound(old(repo.rows)) ==> TokensBound(repo.rows)
  {
    var found := repo.First(ByEmail(TextField(req.body, "email")));
    if found.None? {
      return ServerError();
    }
    var user := WithAliases(Loaded(found.value));
    var verifyToken := SingleUseToken(user.row.id, n);
    SingleUseTokenOwner(user.row.id, n);
    SingleUseTokenFits(user.row.id, n);
    user := user.(verifyToken := Some(verifyToken));
    ghost var before := repo.rows;
    OwnEmailFree(before, user.row.id, user.row.email);
    var _ := repo.Update(user);
    assert repo.rows == before[user.row.id := IssueVerifyToken(found.value, verifyToken)];
    if TokensBound(before) {
      IssuedRowBound(found.value, n);
      TransitionKeepsBound(before, user.row.id, IssueVerifyToken(found.value, verifyToken));
    }
    return Ok("Verify token generated successfully.", user);
  }

  /** `verifyToken`: a token no row holds makes the first property copy throw: 500. */
  method VerifyToken(req: Request, repo: Repository) returns (reply: Reply<UserObject>)
    requires repo.Valid()
    modifies repo
    ensures repo.Valid() && repo.nextId == old(repo.nextId)
    ensures var found := old(repo.First(ByVerifyToken(TextField(req.body, "verifyToken"))));
      && (found.None? ==> reply == ServerError() && repo.rows == old(repo.rows))
      && (found.Some? ==>
            && repo.rows == old(repo.rows)[found.value.id := CompleteVerification(found.value)]
            && repo.rows[found.value.id].role == "CUSTOMER"
            && reply == Ok("User verified successfully.", WithAliases(Loaded(found.value.(role := "CUSTOMER")))))
    ensures TokensBound(old(repo.rows)) ==> TokensBound(repo.rows)
    ensures TokensBound(old(repo.rows)) && reply.Json? && reply.status == 200 ==>
      repo.First(ByVerifyToken(TextField(req.body, "verifyToken"))).None?
  {
    var token := TextField(req.body, "verifyToken");
    var found := repo.First(ByVerifyToken(token));
    if found.None? {
      return ServerError();
    }
    var user := WithAliases(Loaded(found.value));
    user := user.(verifyToken := None);
    user := user.(row := user.row.(role := "CUSTOMER"));
    ghost var before := repo.rows;
    ghost var after := CompleteVerification(found.value);
    OwnEmailFree(before, user.row.id, user.row.email);
    var _ := repo.Update(user);
    assert repo.rows == before[found.value.id := after];
    if TokensBound(before) {
      TransitionKeepsBound(before, found.value.id, after);
      VerifyTokenConsumed(before, found.value.id, after);
    }
    return Ok("User verified successfully.", user);
  }
}
