/**
 * The users table behind core/repository/user_repository.js, held as a map from id to row.
 * Queries are functions of the table; `save` and `update` change it in place.
 */
module UserRepository {
  import opened Values
  import opened UserModel
  import opened Tables
  import Decimal

  /** The `WHERE` clause of each finder. */
  datatype Query =
    | ById(id: nat)
    | ByUsername(username: Option<string>)
    | ByEmail(email: Option<string>)
    | ByResetPasswordToken(resetToken: Option<string>)
    | ByVerifyToken(verifyToken: Option<string>)

  /** `column = $1`: equality on the column, and a NULL parameter matches no row. */
  predicate Matches(r: UserRow, q: Query)
  {
    match q
    case ById(id) => r.id == id
    case ByUsername(u) => u == Some(r.username)
    case ByEmail(e) => e == Some(r.email)
    case ByResetPasswordToken(t) => t.Some? && r.reset_password_token == t
    case ByVerifyToken(t) => t.Some? && r.verify_token == t
  }

  /** The rows a query keeps, under their ids. */
  function Matching(rows: map<nat, UserRow>, q: Query): (m: map<nat, UserRow>)
    ensures forall k :: k in m <==> k in rows && Matches(rows[k], q)
    ensures forall k :: k in m ==> m[k] == rows[k]
  {
    map k | k in rows && Matches(rows[k], q) :: rows[k]
  }

  /**
   * An `:id` path parameter bound to `WHERE id = $1`: Postgres reads decimal digits
   * within the `integer` range; anything else makes the query fail.
   */
  function IdParam(t: Option<string>): (id: Option<nat>)
    ensures id.Some? ==> t.Some? && Decimal.ParseNat(t.value) == id && id.value <= MaxInt4
    ensures t.Some? && Decimal.ParseNat(t.value).Some? && Decimal.ParseNat(t.value).value <= MaxInt4 ==> id.Some?
  {
    if t.None? then None
    else match Decimal.ParseNat(t.value)
      case Some(n) => if n <= MaxInt4 then Some(n) else None
      case None => None
  }

  /** The names in the repository's `module.exports`. */
  const Exports: set<string> := {
    "isEmailUnique", "findByEmail", "save", "findByResetPasswordToken", "findByVerifyToken",
    "update", "findById", "findByUsername", "isUsernameUnique"}

  /** Neither `findAll` nor `deleteById` is among the exports, so calling either throws. */
  lemma HandlersNotExported()
    ensures "findAll" !in Exports && "deleteById" !in Exports
    ensures |Exports| == 9
  {
  }

  /** No two rows share an email: the column is UNIQUE. */
  ghost predicate EmailsUnique(rows: map<nat, UserRow>)
  {
    forall a, b :: a in rows && b in rows && a != b ==> rows[a].email != rows[b].email
  }

  /** Some row other than `id` holds `email`: an update writing it would break the UNIQUE constraint. */
  predicate EmailTakenByOther(rows: map<nat, UserRow>, email: string, id: nat)
  {
    exists k :: k in rows && k != id && rows[k].email == email
  }

  /**
   * The row `update(user)` leaves behind: the SET clause writes the named columns
   * from the object's properties, reading the camel-case `firstName`, `lastName`,
   * `createdAt`, `resetPasswordToken` and `verifyToken`, never `is_enabled`.
   */
  function Written(stored: UserRow, user: UserObject): (r: UserRow)
    ensures r.id == stored.id && r.is_enabled == stored.is_enabled
    ensures r.first_name == user.firstName && r.last_name == user.lastName && r.created_at == user.createdAt
    ensures r.reset_password_token == NullIfFalsy(user.resetPasswordToken)
    ensures r.verify_token == NullIfFalsy(user.verifyToken)
    ensures r.username == user.row.username && r.email == user.row.email
    ensures r.password == user.row.password && r.role == user.row.role
  {
    UserRow(
      stored.id, user.row.username, user.row.email, user.row.password, stored.is_enabled,
      NullIfFalsy(user.verifyToken), NullIfFalsy(user.resetPasswordToken), user.row.role,
      user.firstName, user.lastName, user.createdAt)
  }

  /** The row `save(user)` inserts: `is_enabled` takes the column default 'true'. */
  function Inserted(id: nat, user: NewUser): (r: UserRow)
    requires user.username.Some? && user.email.Some?
    ensures r.id == id && r.is_enabled == Some("true")
    ensures r.verify_token == None && r.reset_password_token == None
    ensures r.role == user.role && r.password == user.password
  {
    UserRow(
      id, user.username.value, user.email.value, user.password, Some("true"), None, None,
      user.role, user.firstName, user.lastName, Some(user.createdAt))
  }

  class Repository {
    /** The table, keyed by id. */
    var rows: map<nat, UserRow>
    /** The next value of the id serial. */
    var nextId: nat

    ghost predicate Valid()
      reads this
    {
      && 1 <= nextId <= MaxInt4 + 1
      && (forall k :: k in rows ==> 1 <= k < nextId && rows[k].id == k && Fits(rows[k]))
      && EmailsUnique(rows)
    }

    constructor ()
      ensures Valid() && rows == map[] && nextId == 1
    {
      rows := map[];
      nextId := 1;
    }

    /** `findById`, `findByUsername`, `findByEmail`, `findByResetPasswordToken`, `findByVerifyToken`: `result.rows`. */
    function Find(q: Query): (rs: seq<UserRow>)
      reads this
      requires Valid()
      ensures forall r :: r in rs <==> r in rows.Values && Matches(r, q)
    {
      var m := Matching(rows, q);
      ScanAllValues(m, nextId);
      Scan(m, 0, nextId)
    }

    /** `result.rows[0]`: the first matching row, if any. */
    function First(q: Query): (r: Option<UserRow>)
      reads this
      requires Valid()
      ensures r.Some? <==> exists k :: k in rows && Matches(rows[k], q)
      ensures r.Some? ==> r.value in rows.Values && r.value.id in rows && rows[r.value.id] == r.value && Matches(r.value, q)
    {
      var rs := Find(q);
      if |rs| > 0 then
        assert rs[0] in rs;
        Some(rs[0])
      else
        assert forall k :: k in rows ==> rows[k] in rows.Values;
        None
    }

    /** `isEmailUnique(email)`: true when the email is already in use. */
    function IsEmailUnique(email: Option<string>): (taken: bool)
      reads this
      requires Valid()
      ensures taken <==> exists k :: k in rows && Some(rows[k].email) == email
    {
      First(ByEmail(email)).Some?
    }

    /** `isUsernameUnique(username)`: true when the username is already in use. */
    function IsUsernameUnique(username: Option<string>): (taken: bool)
      reads this
      requires Valid()
      ensures taken <==> exists k :: k in rows && Some(rows[k].username) == username
    {
      First(ByUsername(username)).Some?
    }

    /**
     * `save(user)`: one INSERT. It fails once the id serial is exhausted, on a NULL
     * username or email, on an email already in use, and on a text over 255 characters;
     * a serial value is consumed whenever one is left.
     */
    method Save(user: NewUser) returns (ok: bool)
      requires Valid()
      modifies this
      ensures Valid()
      ensures nextId == NextSerial(old(nextId))
      ensures ok <==> old(nextId) <= MaxInt4 && user.username.Some? && user.email.Some?
                      && !old(IsEmailUnique(user.email)) && Fits(Inserted(old(nextId), user))
      ensures ok ==> rows == old(rows)[old(nextId) := Inserted(old(nextId), user)]
      ensures !ok ==> rows == old(rows)
    {
      ok := nextId <= MaxInt4 && user.username.Some? && user.email.Some?
            && !IsEmailUnique(user.email) && Fits(Inserted(nextId, user));
      if ok {
        rows := rows[nextId := Inserted(nextId, user)];
      }
      nextId := NextSerial(nextId);
    }

    /**
     * `update(user)`: one UPDATE of the row whose id is `user.id`. With no such row
     * nothing changes; an email held by another row, or a text over 255 characters,
     * makes the statement fail.
     */
    method Update(user: UserObject) returns (ok: bool)
      requires Valid()
      modifies this
      ensures Valid() && nextId == old(nextId)
      ensures ok <==> !(user.row.id in old(rows) && (EmailTakenByOther(old(rows), user.row.email, user.row.id)
                                                     || !Fits(Written(old(rows)[user.row.id], user))))
      ensures ok && user.row.id in old(rows) ==> rows == old(rows)[user.row.id := Written(old(rows)[user.row.id], user)]
      ensures !(ok && user.row.id in old(rows)) ==> rows == old(rows)
    {
      var id := user.row.id;
      ok := !(id in rows && (EmailTakenByOther(rows, user.row.email, id) || !Fits(Written(rows[id], user))));
      if ok && id in rows {
        rows := rows[id := Written(rows[id], user)];
      }
    }
  }

  /** A handler that writes back a row it loaded, with its email untouched, never hits the UNIQUE constraint. */
  lemma OwnEmailFree(rows: map<nat, UserRow>, id: nat, email: string)
    requires EmailsUnique(rows) && id in rows && rows[id].email == email
    ensures !EmailTakenByOther(rows, email, id)
  {
  }
}
