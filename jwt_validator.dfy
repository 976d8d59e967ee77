/**
 * core/middleware/jwt_validator.js: `validateJWT`, a ladder of four checks (header present,
 * token verifies, user exists, user active) whose first failure answers 401 and whose
 * success attaches the principal to the request.
 */
module JwtValidator {
  import opened Values
  import opened UserModel
  import opened Middleware
  import opened UserRepository
  import JwtGenerator

  const NoJwt := "There is no JWT in the request."
  const BadJwt := "Invalid JWT."
  const NoSuchUser := "Invalid JWT - User does not exist."
  const NotActive := "Invalid JWT - User is not active."

  /** Where the ladder ends: a principal to attach, or the message of a 401. */
  datatype Outcome = Attach(user: UserRow) | Refuse(msg: string)

  /** `findById(id)` on a table keyed by id. */
  function Lookup(rows: map<nat, UserRow>, id: nat): Option<UserRow>
  {
    if id in rows then Some(rows[id]) else None
  }

  /** `user.isEnabled` as written: a raw row carries `is_enabled` only, so this is always undefined. */
  predicate ActiveAsWritten(u: UserRow)
  {
    Truthy(Prop(u, "isEnabled"))
  }

  /** The activity test evidently intended: the `is_enabled` column, truthy when it is a non-empty text. */
  predicate Active(u: UserRow)
  {
    Truthy(Prop(u, "is_enabled"))
  }

  /** The ladder, with the activity test as a parameter; each check runs only when the previous ones passed. */
  function Ladder(token: Option<string>, rows: map<nat, UserRow>, active: UserRow -> bool): (o: Outcome)
    ensures !Present(token) ==> o == Refuse(NoJwt)
    ensures Present(token) && JwtGenerator.Verify(token.value).None? ==> o == Refuse(BadJwt)
    ensures Present(token) && JwtGenerator.Verify(token.value).Some? ==>
      var id := JwtGenerator.Verify(token.value).value;
      && (id !in rows ==> o == Refuse(NoSuchUser))
      && (id in rows && !active(rows[id]) ==> o == Refuse(NotActive))
      && (id in rows && active(rows[id]) ==> o == Attach(rows[id]))
  {
    if !Present(token) then Refuse(NoJwt)
    else
      var id := JwtGenerator.Verify(token.value);
      if id.None? then Refuse(BadJwt)
      else
        var user := Lookup(rows, id.value);
        if user.None? then Refuse(NoSuchUser)
        else if !active(user.value) then Refuse(NotActive)
        else Attach(user.value)
  }

  /** `validateJWT` as written. */
  function ResolveAsWritten(token: Option<string>, rows: map<nat, UserRow>): Outcome
  {
    Ladder(token, rows, ActiveAsWritten)
  }

  /** `validateJWT` with the intended activity test; the rest of the model uses this one. */
  function Resolve(token: Option<string>, rows: map<nat, UserRow>): Outcome
  {
    Ladder(token, rows, Active)
  }

  /**
   * As written, no request ever gets past the ladder: every token ends in a 401, and the
   * two ladders differ only where the intended one attaches and the written one says "not active".
   */
  lemma AsWrittenNeverAttaches(token: Option<string>, rows: map<nat, UserRow>)
    ensures ResolveAsWritten(token, rows).Refuse?
    ensures ResolveAsWritten(token, rows) != Resolve(token, rows) ==>
      Resolve(token, rows).Attach? && ResolveAsWritten(token, rows) == Refuse(NotActive)
  {
  }

  /** The input that shows it: an enabled user presenting their own freshly issued token. */
  lemma AsWrittenRefusesEnabledUser(u: UserRow)
    requires u.is_enabled == Some("true")
    ensures ResolveAsWritten(Some(JwtGenerator.GenerateJwt(u.id)), map[u.id := u]) == Refuse(NotActive)
    ensures Resolve(Some(JwtGenerator.GenerateJwt(u.id)), map[u.id := u]) == Attach(u)
  {
    JwtGenerator.VerifyGenerated(u.id);
  }

  /**
   * Intended behaviour: a request carrying the token issued to a stored user is
   * attached to exactly that user iff the user's `is_enabled` text is non-empty.
   */
  lemma IssuedTokenResolves(rows: map<nat, UserRow>, id: nat)
    requires id in rows
    ensures Resolve(Some(JwtGenerator.GenerateJwt(id)), rows).Attach? <==> Present(rows[id].is_enabled)
    ensures Resolve(Some(JwtGenerator.GenerateJwt(id)), rows).Attach? ==> Resolve(Some(JwtGenerator.GenerateJwt(id)), rows).user == rows[id]
  {
    JwtGenerator.VerifyGenerated(id);
  }

  /** With a valid table, `findById` is the map lookup. */
  lemma FirstById(repo: Repository, id: nat)
    requires repo.Valid()
    ensures repo.First(ById(id)) == Lookup(repo.rows, id)
  {
    if id in repo.rows {
      assert Matches(repo.rows[id], ById(id));
    }
  }

  /**
   * `validateJWT` on a request, with the corrected `is_enabled` test (the check as
   * written is `AsWrittenNeverAttaches`): answers the ladder's 401, or sets `req.user`
   * to the resolved principal and calls `next`; nothing else on the request changes.
   */
  method ValidateJwt(req: Request, repo: Repository) returns (s: Step)
    requires repo.Valid()
    modifies req
    ensures Resolve(req.token, repo.rows).Refuse? ==> s == Respond(401, Resolve(req.token, repo.rows).msg) && req.user == old(req.user)
    ensures Resolve(req.token, repo.rows).Attach? ==> s == Next && req.user == Some(Resolve(req.token, repo.rows).user)
  {
    if !Present(req.token) {
      return Respond(401, NoJwt);
    }
    var id := JwtGenerator.Verify(req.token.value);
    if id.None? {
      return Respond(401, BadJwt);
    }
    var user := repo.First(ById(id.value));
    FirstById(repo, id.value);
    if user.None? {
      return Respond(401, NoSuchUser);
    }
    if !Truthy(Prop(user.value, "is_enabled")) {
      return Respond(401, NotActive);
    }
    req.user := user;
    return Next;
  }
}
