/**
 * The record shapes of the users table and of the objects the handlers build from it.
 * Row fields keep the column names (`first_name`, `is_enabled`, ...) because the pg
 * driver returns rows keyed by column name, and several handlers read or set the
 * camel-case properties (`firstName`, `isEnabled`, ...) instead.
 */
module UserModel {
  import opened Values
  import opened Tables

  /** A row of the users table as the store returns it. */
  datatype UserRow = UserRow(
    id: nat,
    username: string,
    email: string,
    password: string,
    is_enabled: Option<string>,          // a text column that defaults to 'true'
    verify_token: Option<string>,
    reset_password_token: Option<string>,
    role: string,
    first_name: Option<string>,
    last_name: Option<string>,
    created_at: Option<int>)

  /**
   * Every text column of core/model/user.js is a `table.string`, so `varchar(255)`.
   * `password` is left out: it always holds a bcrypt digest of 60 characters, which the
   * stand-in digest of this model does not imitate.
   */
  predicate Fits(r: UserRow)
  {
    && FitsVarchar(r.username) && FitsVarchar(r.email) && FitsVarchar(r.role)
    && FitsVarcharOrNull(r.is_enabled) && FitsVarcharOrNull(r.verify_token) && FitsVarcharOrNull(r.reset_password_token)
    && FitsVarcharOrNull(r.first_name) && FitsVarcharOrNull(r.last_name)
  }

  /** `row[key]` on a raw row: one property per column and nothing else. */
  function Prop(row: UserRow, key: string): (v: JsValue)
    ensures key == "is_enabled" ==> v == FromText(row.is_enabled)
    ensures key == "isEnabled" ==> v == Undefined
  {
    if key == "id" then Num(row.id)
    else if key == "username" then Str(row.username)
    else if key == "email" then Str(row.email)
    else if key == "password" then Str(row.password)
    else if key == "is_enabled" then FromText(row.is_enabled)
    else if key == "verify_token" then FromText(row.verify_token)
    else if key == "reset_password_token" then FromText(row.reset_password_token)
    else if key == "role" then Str(row.role)
    else if key == "first_name" then FromText(row.first_name)
    else if key == "last_name" then FromText(row.last_name)
    else if key == "created_at" then (if row.created_at.Some? then Date(row.created_at.value) else Null)
    else Undefined
  }

  /**
   * A loaded row after a handler has set properties on it. The columns a handler
   * assigns under their own name (`password`, `role`, `username`, `email`) change
   * `row`; the camel-case properties are kept beside it, None meaning undefined.
   */
  datatype UserObject = UserObject(
    row: UserRow,
    firstName: Option<string>,
    lastName: Option<string>,
    createdAt: Option<int>,
    isEnabled: JsValue,
    resetPasswordToken: Option<string>,
    verifyToken: Option<string>)

  /** `const user = result.rows[0]`: a row with no extra properties yet. */
  function Loaded(row: UserRow): UserObject
  {
    UserObject(row, None, None, None, Undefined, None, None)
  }

  /** The three copies every handler makes: `firstName`, `lastName` and `createdAt` from their columns. */
  function WithAliases(u: UserObject): UserObject
  {
    u.(firstName := u.row.first_name, lastName := u.row.last_name, createdAt := u.row.created_at)
  }

  /** The plain object `register` builds and hands to `save`. */
  datatype NewUser = NewUser(
    username: Option<string>,
    email: Option<string>,
    password: string,
    firstName: Option<string>,
    lastName: Option<string>,
    role: string,
    createdAt: int)
}
