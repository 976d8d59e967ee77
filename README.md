# Redflix user and movie service: a Dafny model

This project models the request-handling core of a small Express/PostgreSQL service.
The service has three routers:

- the auth router: login, registration, password reset and e-mail verification;
- the user router: reading and editing user records;
- the movie router: movie CRUD.

Each router runs a request through an array of middleware before its handler:
JWT validation, request-field checks, `validateFields`, and role gates.

The model keeps the shapes the service works with:

- users and movies are rows keyed by a serial id (`map<nat, Row>` inside a `Repository`
  class whose methods change it in place);
- request bodies are maps from field names to JavaScript values, with JavaScript
  truthiness made explicit;
- middleware returns a `Step` (`next`, an immediate response, a 400 with validation
  errors, or a thrown `AppException`);
- handlers are methods that return a `Reply`: a JSON status, message and payload, or
  `Unanswered` where the source rejects outside a try/catch (an unhandled rejection, so
  no response is sent);
- the schema's limits are explicit: every `table.string` column is `varchar(255)`, and
  the `serial` id is a Postgres `integer`, so an INSERT fails once it is exhausted.

Module by module:

- `Values`: JavaScript values, truthiness, the `a ? a : b` merges, request bodies.
- `Decimal`: `Number.prototype.toString`, `padStart`, and the integer parse used for ids.
- `Tables`: a table scan in id order, the serial's range and the `varchar(255)` limit.
- `Bcrypt` and `JwtGenerator`: deterministic stand-ins for the two libraries.
- `AppException`: the exception hierarchy.
- `UserModel`: rows, and the JS objects the handlers build from them.
- `UserRepository`, `MovieRepository`: the SQL each function runs, on a table.
- `DbAuthValidator`, `DbMovieValidator`: the role and type enumerations and the custom validators.
- `UserRoleValidator`, `RoleValidator`, `MovieRoleValidator`: the role gates.
- `JwtValidator`: `validateJWT`.
- `FieldValidator`: the `check(...)` rules the routes declare, and `validateFields`.
- `AuthController`, `UserController`, `MovieController`: the handlers.
- `Router`: first-match dispatch and the middleware chain.
- `UserRoute`, `AuthRoute`, `MovieRoute`: the three route tables and the policies they enforce.

Things the source does that the model keeps, as the code is written:

- Query results are rows keyed by SQL column names (`first_name`, `is_enabled`,
  `reset_password_token`). The handlers copy some of them into camelCase properties.
  `update` reads the camelCase token properties. So a handler that does not set
  `user.verifyToken` writes NULL into `verify_token`: `forgotPassword` clears a pending
  verification and `requestVerifyToken` clears a pending reset.
- `update` never writes `is_enabled`.
- Every handler that copies `user.first_name` before checking `!user` answers 500 for
  an unknown row. This covers login, resetPassword, verifyToken, updateById and the
  others. Their 404/400 branches are unreachable.
- `userRepository` exports neither `findAll` nor `deleteById`, so those two user
  handlers always answer 500.
- The `updateById` guard lets a MANAGER assign the ADMIN role and no other role
  (`UserController.ManagerGuard`).
- `verifyToken` sets the role to CUSTOMER whatever it was, ADMIN included.
- Reset and verify tokens are `id` followed by seven random digits. They are returned in
  the response body.
- The reset-password, forgot-password, request-verify-token and verify-token routes
  declare checks but no `validateFields`, so the checks never block.
- On the movie router, POST checks the fields before the role, and PUT checks the role
  before an empty `validateFields`.

## Model

| member | source | states |
|---|---|---|
| AppException.Construct | core/exception/app_exception.js:1-7 | the name and message are kept; a missing or zero status becomes 500, any other status is kept |
| AppException.NewAppException | core/exception/app_exception.js:1-7 | a bare AppException has status 500 exactly when it was given none, 0 or 500 |
| AppException.Raise | core/exception/app_exception.js:9-37 | each subclass carries its class name and fixes its status: 404, 400, 401, 409 or 405 |
| AppException.StatusIdentifiesKind | core/exception/app_exception.js:9-37 | no subclass produces 500, and the status tells the subclass apart |
| Bcrypt.HashSync | core/controller/auth_controller.js:80-81 | the stored digest is never the plaintext password |
| Bcrypt.CompareHash | core/controller/auth_controller.js:38 | `compareSync` accepts a password against its own digest |
| Bcrypt.CompareOther | core/controller/auth_controller.js:38 | for the stand-in digest, `compareSync` rejects any other password; bcrypt promises this only for passwords that differ within their first 72 bytes |
| JwtGenerator.GenerateJwt | core/helper/jwt_generator.js:11-30 | a generated token is well formed (carries the token prefix and a payload) |
| JwtGenerator.VerifyGenerated | core/helper/jwt_generator.js:11-30 | verifying a generated token yields the id in its payload |
| JwtGenerator.VerifyExactly | core/helper/jwt_generator.js:11-30 | a token verifies to an id exactly when it is the token generated for that id |
| Decimal.NumberToString | core/controller/auth_controller.js:105-109 | `toString()` of a non-negative integer is a non-empty string of digits |
| Decimal.ParseNumberToString | core/controller/auth_controller.js:105-109 | parsing `toString()` of n gives back n |
| Decimal.NumberToStringInjective | core/controller/auth_controller.js:105-109 | distinct numbers have distinct decimal strings |
| Decimal.NumberToStringLength | core/controller/auth_controller.js:107-109 | a number below 10^k has at most k digits, so seven-digit padding never truncates |
| Decimal.PadStart | core/controller/auth_controller.js:107-109 | `padStart(width, fill)` keeps the string as a suffix, fills the front, and reaches at least the width |
| Tables.ScanMembers | crud/movie/repository/movie_repository.js:47-51 | a scan of ids lo..hi returns exactly the rows stored under those ids |
| Tables.ScanAll | crud/movie/repository/movie_repository.js:47-51 | a scan of the whole id range holds a row exactly when the table does |
| Tables.ScanAllValues | crud/movie/repository/movie_repository.js:47-51 | the same, for every row at once |
| Tables.ScanLength | crud/movie/repository/movie_repository.js:47-51 | a scan returns one row per stored id in range, so no row twice |
| Tables.ScanAllLength | crud/movie/repository/movie_repository.js:47-51 | a full scan returns as many rows as the table holds |
| Tables.NextSerial | crud/movie/model/movie.js:2 | the `increments` key's sequence moves on by one and stops past the largest `integer` |
| UserModel.Prop | core/model/user.js:5-15 | a property of a query row exists only under its column name; camelCase names read `undefined` |
| UserRepository.Matching | core/repository/user_repository.js:51-88 | a `WHERE col = $1` selection holds exactly the rows whose column equals the parameter; NULL matches nothing |
| UserRepository.IdParam | core/repository/user_repository.js:121-125 | the `int4` id parameter is accepted exactly when it is a run of digits at most 2147483647 |
| UserRepository.Written | core/repository/user_repository.js:107-114 | `update` writes the merged names, username, email, password and role, and both tokens from their camelCase properties (NULL when falsy); it keeps `is_enabled` and the id |
| UserRepository.Inserted | core/repository/user_repository.js:94-101 | `save` stores a row with `is_enabled` 'true', no tokens, and the given role and password |
| UserRepository.Repository.constructor | core/model/user.js:5-15 | a new table is empty and its serial starts at 1 |
| UserRepository.Repository.Find | core/repository/user_repository.js:51-88 | a find returns exactly the stored rows matching the query |
| UserRepository.Repository.First | core/repository/user_repository.js:51-88 | `rows[0]` exists exactly when some row matches, and is then a stored matching row |
| UserRepository.Repository.IsEmailUnique | core/repository/user_repository.js:11-24 | answers true exactly when some row holds the email (the name is inverted in the source) |
| UserRepository.Repository.IsUsernameUnique | core/repository/user_repository.js:31-44 | answers true exactly when some row holds the username |
| UserRepository.Repository.Save | core/repository/user_repository.js:94-101 | the serial advances unless exhausted; the insert succeeds exactly when a serial value is left, username and email are present, the email is unused and every text fits its `varchar(255)` column, and then adds the inserted row under the new id; otherwise nothing is stored |
| UserRepository.Repository.Update | core/repository/user_repository.js:107-114 | the write fails exactly when the row exists and another row holds the email (UNIQUE) or the written row has a text over 255 characters; otherwise the row under the id becomes the written row, or nothing happens when there is none |
| UserRepository.HandlersNotExported | core/repository/user_repository.js:127-137 | the module's nine exports include neither `findAll` nor `deleteById` |
| UserRepository.OwnEmailFree | core/repository/user_repository.js:107-114 | keeping one's own email never violates the UNIQUE constraint |
| DbAuthValidator.RolesAreTheEnumeration | core/helper/db_auth_validator.js:9 | `ROLES` lists the six roles, each once, and nothing else |
| DbAuthValidator.NameInjective | core/helper/db_auth_validator.js:9 | distinct roles have distinct names |
| DbAuthValidator.IsRoleValid | core/helper/db_auth_validator.js:15-20 | a role passes exactly when it is one of the six role strings |
| DbAuthValidator.RoleMatchIsCaseSensitive | core/helper/db_auth_validator.js:15-20 | "admin" and "Admin" are refused, "ADMIN" passes |
| DbAuthValidator.IsEmailUnique | core/helper/db_auth_validator.js:26-31 | throws exactly when some row already holds the email |
| DbAuthValidator.IsUsernameUnique | core/helper/db_auth_validator.js:37-42 | throws exactly when some row already holds the username |
| DbMovieValidator.TypesAreTheEnumeration | crud/movie/helper/db_movie_validator.js:8 | `TYPES` lists the nine movie types and nothing else |
| DbMovieValidator.IsTypeValid | crud/movie/helper/db_movie_validator.js:14-19 | a type passes exactly when it is one of the nine type strings |
| DbMovieValidator.TypeMatchIsExact | crud/movie/helper/db_movie_validator.js:14-19 | the column default "movie", a missing type and a lower-case type are refused |
| UserRoleValidator.AdmitsExactly | core/middleware/user_role_validator.js:33-157 | each gate's comparison chain admits exactly the roles of its accept set |
| UserRoleValidator.Gate | core/middleware/user_role_validator.js:14-157 | no user throws 401 asking for the JWT first; a user passes exactly when the role is in the gate's accept set; otherwise 401 "role not available"; every refusal is a 401 |
| UserRoleValidator.NoHierarchy | core/middleware/user_role_validator.js:33-157 | ADMIN passes the ADMIN gate but not the MANAGER-only or EMPLOYEE-only gates: roles are not ranked |
| UserRoleValidator.GuestAndDeletedPassOnlyTheirOwnGate | core/middleware/user_role_validator.js:33-157 | GUEST and DELETED_USER pass only the gate named after them |
| UserRoleValidator.UnknownRolePassesNothing | core/middleware/user_role_validator.js:33-157 | a role outside `ROLES` passes no gate |
| UserRoleValidator.Export | core/middleware/user_role_validator.js:160-169 | the module exports its eight gates under their names |
| RoleValidator.Gate | core/middleware/role_validator.js:13-142 | no user answers 500; a user passes exactly when it holds the one required role; otherwise 401 "<username> is not <ROLE>."; the gate never throws |
| RoleValidator.AtMostOneGate | core/middleware/role_validator.js:13-142 | a user passes at most one of the six gates, and some gate exactly when its role is listed |
| RoleValidator.Export | core/middleware/role_validator.js:145-152 | the module exports the six single-role gates only, not `isUserAllowed` or `isUserMeAllowed` |
| MovieRoleValidator.AdmitsExactly | crud/movie/middleware/movie_role_validator.js:13-73 | each gate's comparison chain admits exactly its accept set |
| MovieRoleValidator.Gate | crud/movie/middleware/movie_role_validator.js:13-73 | no user answers 500; a user passes exactly when its role is in the accept set; otherwise 401 with the gate's refusal text |
| MovieRoleValidator.GatesNested | crud/movie/middleware/movie_role_validator.js:13-73 | passing isUserAdmin implies passing the save/update gate, which implies passing isUserAllowed |
| MovieRoleValidator.RefusedRoles | crud/movie/middleware/movie_role_validator.js:13-73 | GUEST and DELETED_USER are refused by every movie gate; CUSTOMER passes only isUserAllowed |
| MovieRoleValidator.Export | crud/movie/middleware/movie_role_validator.js:75-79 | the three gates are exported under their names |
| JwtValidator.Ladder | core/middleware/jwt_validator.js:16-50 | no token gives 401 "no JWT"; a token that does not verify gives 401 "Invalid JWT."; an unknown id gives "user does not exist"; an inactive user gives "not active"; otherwise the row is attached |
| JwtValidator.AsWrittenNeverAttaches | core/middleware/jwt_validator.js:37-41 | as written, `validateJWT` refuses every request; where it differs from the corrected check, the corrected one attaches a user the written one calls inactive |
| JwtValidator.AsWrittenRefusesEnabledUser | core/middleware/jwt_validator.js:37-41 | an enabled user with a freshly issued token is refused as "not active" by the written check and attached by the corrected one |
| JwtValidator.IssuedTokenResolves | core/middleware/jwt_validator.js:16-50 | a token issued for a stored id resolves exactly when that row's `is_enabled` is truthy, and then to that row |
| JwtValidator.FirstById | core/repository/user_repository.js:121-125 | `findById(id).rows[0]` is the row stored under the id |
| JwtValidator.ValidateJwt | core/middleware/jwt_validator.js:16-50 | with the corrected `is_enabled` test (see ## Findings): a refusal answers 401 with its message and attaches nobody; otherwise `req.user` becomes the resolved row and the request goes on |
| Middleware.Request.constructor | core/middleware/jwt_validator.js:17 | a request starts with its header, body and path parameter, and no user attached |
| FieldValidator.AsString | core/middleware/field_validator.js:13-19 | the validators see a string as itself, and null or undefined as "" |
| FieldValidator.Failures | core/routes/auth_route.js:28-102 | a check records no error exactly when every one of its rules passes, at most one error per rule, all under the check's field |
| FieldValidator.ValidateFields | core/middleware/field_validator.js:13-19 | the request goes on exactly when no error was recorded; otherwise 400 with the errors |
| FieldValidator.CheckPasses | core/routes/auth_route.js:41-57 | a one- or two-rule check records nothing exactly when its rules pass |
| FieldValidator.TypeValidPasses | crud/movie/routes/movie_route.js:39 | `custom(isTypeValid)` passes exactly when `isTypeValid` accepts the value |
| AuthController.SingleUseTokenOwner | core/controller/auth_controller.js:105-109 | an issued token has the id's digits plus seven, hence at least eight characters, and names the id it was issued for |
| AuthController.SingleUseTokenFits | core/controller/auth_controller.js:105-109 | a token issued for an `integer` id has at most 17 characters, so writing it never overflows its `varchar(255)` column |
| AuthController.SingleUseTokensDistinct | core/controller/auth_controller.js:105-109 | tokens issued for different users differ whatever the random draws |
| AuthController.AtMostOneHolder | core/repository/user_repository.js:73-88 | while every stored token is bound to its own row's id, a token is held by at most one row |
| AuthController.ResetTokenConsumed | core/controller/auth_controller.js:130-161 | after the reset clears the token, no row matches it: a replayed reset finds nothing |
| AuthController.VerifyTokenConsumed | core/controller/auth_controller.js:202-223 | after verification clears the token, no row matches it: replay finds nothing |
| AuthController.TransitionKeepsBound | core/repository/user_repository.js:107-114 | writing a row with no token, or with tokens bound to its own id, keeps every stored token bound |
| AuthController.IssuedRowBound | core/controller/auth_controller.js:96-122 | a row given a freshly issued reset or verify token is bound |
| AuthController.Login | core/controller/auth_controller.js:16-59 | unknown username is 500; a falsy `is_enabled` is 400 "...b."; a missing password is 500; a wrong password is 400 "...c."; otherwise 200 with the user and a JWT. A 200 means a stored row with that username, a matching password, and a token verifying to its id |
| AuthController.Register | core/controller/auth_controller.js:67-88 | a missing password is unanswered and the table untouched; otherwise the serial advances unless exhausted and, when the insert is accepted (a serial value left, username and email present, email unused, username, email and names within 255 characters), the new row is a GUEST with the digest, not the plaintext, and the answer is 200; a rejected insert is unanswered; stored tokens stay bound |
| AuthController.ForgotPassword | core/controller/auth_controller.js:96-122 | unknown email is 500 with no write; otherwise the row gets the reset token `id` + seven digits, its verify token becomes NULL, and the token is returned in the response |
| AuthController.ResetPassword | core/controller/auth_controller.js:130-161 | an unknown token or a missing password is 500 with no write; otherwise the password becomes the new digest, both tokens are cleared, and the same token no longer finds a row |
| AuthController.RequestVerifyToken | core/controller/auth_controller.js:169-194 | unknown email is 500 with no write; otherwise the row gets the verify token and its reset token becomes NULL |
| AuthController.VerifyToken | core/controller/auth_controller.js:202-223 | an unknown token is 500 with no write; otherwise the role becomes CUSTOMER whatever it was, both tokens are cleared, and the token no longer finds a row |
| UserController.FindById | core/controller/user_controller.js:13-28 | a malformed id is 500; otherwise 200 with the stored row or none |
| UserController.FindAll | core/controller/user_controller.js:36-50 | always 500: the repository does not export `findAll` |
| UserController.DeleteById | core/controller/user_controller.js:96-109 | always 500 and nothing deleted: the repository does not export `deleteById` |
| UserController.FindMe | core/controller/user_controller.js:117-132 | with no user attached, 500; otherwise 200 with the requester's own row, looked up again |
| UserController.ManagerGuard | core/controller/user_controller.js:62-68 | a MANAGER may set the role to ADMIN and to no other role; any other requester may set any role |
| UserController.RoleAssigned | core/controller/user_controller.js:58-88 | `updateById` adopts a truthy role, keeps id, username, names, email, password, creation time and `is_enabled`, and clears both tokens; from a stored row, the result fits its columns exactly when an adopted role has at most 255 characters |
| UserController.UpdateById | core/controller/user_controller.js:58-88 | a throwing guard, a malformed id, a missing row or a role over 255 characters is 500 with no write; otherwise only that row changes, to the role-assigned row, and the answer is 200 with the merged object; stored tokens stay bound |
| UserController.MeEdited | core/controller/user_controller.js:140-169 | `updateMe` adopts truthy names, username and email, keeps id, role, password and `is_enabled`, and clears both tokens; from a stored row, the result fits its columns exactly when each adopted text has at most 255 characters |
| UserController.MeDto | core/controller/user_controller.js:140-169 | the object `updateMe` answers with is the one it writes: `update` stores exactly the edited row; `isEnabled` is copied from its column and no token is set |
| UserController.UpdateMe | core/controller/user_controller.js:140-169 | only the requester's own row changes, to the edited row, and the answer is 200 with the object written; an email held by another row or an adopted name, username or email over 255 characters is 500 with no write; with no user or no row, 500; stored tokens stay bound |
| MovieRepository.Inserted | crud/movie/repository/movie_repository.js:10-17 | `save` stores the given title, description, type, trailer link and creation time under the new id, and an insertable movie gives a row that fits its columns |
| MovieRepository.Written | crud/movie/repository/movie_repository.js:23-30 | `update` writes title, description, type and trailer link, and keeps id and creation time |
| MovieRepository.Repository.constructor | crud/movie/model/movie.js:1-7 | a new movie table is empty and its serial starts at 1 |
| MovieRepository.Repository.FindById | crud/movie/repository/movie_repository.js:37-41 | finds a movie exactly when the id is stored, and then the stored movie |
| MovieRepository.Repository.FindAll | crud/movie/repository/movie_repository.js:47-51 | returns exactly the stored movies, each once |
| MovieRepository.Repository.Save | crud/movie/repository/movie_repository.js:10-17 | the serial advances unless exhausted; the insert succeeds exactly when a serial value is left, the NOT NULL columns are present and title, type and trailer link fit `varchar(255)`, and then adds the row |
| MovieRepository.Repository.Update | crud/movie/repository/movie_repository.js:23-30 | fails exactly when the row exists and the written row has a title, type or trailer link over 255 characters; otherwise rewrites the row under the id if there is one, and changes nothing when there is none |
| MovieRepository.Repository.DeleteById | crud/movie/repository/movie_repository.js:57-60 | removes the row under the id and nothing else |
| MovieController.UpdateTypesAreTypes | crud/movie/controller/movie_controller.js:82-107 | the type list `updateById` checks against is `TYPES`: a type is listed exactly when `isTypeValid` accepts it |
| MovieController.Create | crud/movie/controller/movie_controller.js:13-28 | the serial advances unless exhausted; a complete movie whose texts fit is inserted and answered 200; an incomplete or overlong one, or an exhausted serial, is unanswered (an unhandled rejection) with nothing stored |
| MovieController.FindById | crud/movie/controller/movie_controller.js:36-51 | a malformed id is 500; otherwise 200 with the stored movie or none |
| MovieController.FindAll | crud/movie/controller/movie_controller.js:59-73 | 200 with exactly the stored movies, each once |
| MovieController.Merged | crud/movie/controller/movie_controller.js:82-107 | truthy title, description and trailer link are adopted; the type is adopted only when it is listed; id and creation time are kept; from a stored row, the result fits its columns exactly when an adopted title and trailer link have at most 255 characters |
| MovieController.MergedKeepsTypeListed | crud/movie/controller/movie_controller.js:82-107 | an update never puts an unlisted type into a movie whose type was listed |
| MovieController.MergedIdempotent | crud/movie/controller/movie_controller.js:82-107 | applying the same update twice is applying it once |
| MovieController.UpdateById | crud/movie/controller/movie_controller.js:82-107 | a malformed id, a missing movie or an adopted title or trailer link over 255 characters is 500 with no write; otherwise only that movie changes, to the merged row, and the answer is 200 with the merged object, which keeps the stored `trailer_link` beside the new `trailerLink` |
| MovieController.DeleteById | crud/movie/controller/movie_controller.js:115-128 | a malformed id is 500; otherwise the row under the id is removed and 200 names the id, even when there was no such movie |
| Router.Dispatch | core/routes/user_route.js:39-91 | a request reaches the first registered route that matches it, and none when no route matches |
| Router.RunAppend | core/routes/user_route.js:39-91 | running two middleware arrays in turn is running their concatenation |
| Router.AllFailures | core/routes/auth_route.js:28-102 | the checks of a route record no error exactly when no single check records one |
| Router.Validations | core/routes/auth_route.js:28-102 | a list of checks becomes that many middleware entries, in order |
| Router.RunChecks | core/routes/auth_route.js:28-102 | checks never stop a request: they only append their errors |
| Router.HandlerPassedEveryGate | core/routes/user_route.js:39-91 | a request that reaches the handler passed every gate of its chain with one principal, the one its token resolves to |
| Router.RunChecksThenValidate | core/middleware/field_validator.js:13-19 | checks closed by `validateFields` let the request on exactly when they recorded nothing, and otherwise answer 400 with those errors |
| UserRoute.AsWrittenNotMountable | core/routes/user_route.js:21-28 | as written, two route arrays hold `undefined`, so the user router cannot be mounted |
| UserRoute.RoutesMountable | core/routes/user_route.js:39-91 | with the intended imports every route registers, with the gate named in its array |
| UserRoute.JwtFirst | core/routes/user_route.js:39-91 | every user route validates the JWT first and nowhere else |
| UserRoute.AccessPolicy | core/routes/user_route.js:39-91 | GET /, GET /:id and PUT /:id reach the handler only for MANAGER or ADMIN; GET /me and PUT /me for every listed role but GUEST and DELETED_USER; DELETE /:id only for ADMIN; always for the principal the token resolves to |
| UserRoute.MeGateRoles | core/middleware/user_role_validator.js:71-81 | `isUserMeAllowed` passes only listed roles other than GUEST and DELETED_USER |
| UserRoute.MeBeforeId | core/routes/user_route.js:45-55 | `/me` is registered before `/:id`, so "me" reaches findMe and updateMe while an id reaches findById |
| UserRoute.UpdateByIdChecksDoNotBlock | core/routes/user_route.js:75-84 | PUT /:id reaches its handler exactly when the JWT and the gate pass, whatever its role and isEnabled checks record |
| AuthRoute.NoJwtNoGate | core/routes/auth_route.js:28-102 | every auth route registers, and its array holds only checks and `validateFields` |
| AuthRoute.NoPrincipal | core/routes/auth_route.js:28-102 | an auth handler is reached with no user attached |
| AuthRoute.LoginAdmission | core/routes/auth_route.js:28-36 | login is reached exactly when username and password are non-empty, and otherwise answered 400 with the errors |
| AuthRoute.RegisterAdmission | core/routes/auth_route.js:41-57 | register is reached exactly when the names and username are non-empty, the username and email are unused, the password is 8+ alphanumeric characters and the email is well formed; otherwise 400 with all errors |
| AuthRoute.RegisterChecksAccept | core/routes/auth_route.js:41-57 | each of register's seven checks records nothing exactly when its own condition holds |
| AuthRoute.RegisterCheckAccepts | core/routes/auth_route.js:41-57 | the same, for one check at a time |
| AuthRoute.RegisterAcceptsByCheck | core/routes/auth_route.js:41-57 | register's whole condition is the conjunction of the per-check conditions |
| AuthRoute.ChecksDoNotBlock | core/routes/auth_route.js:62-102 | forgot-password, reset-password, request-verify-token and verify-token always reach their handler, carrying whatever the checks recorded |
| AuthRoute.ResetChecksRecord | core/routes/auth_route.js:73-80 | reset-password's checks record nothing exactly when the password is 8+ alphanumeric characters and the token has 8+ characters |
| MovieRoute.Shape | crud/movie/routes/movie_route.js:32-77 | the movie router registers; each route validates the JWT first, only there, and with the gate named in its array |
| MovieRoute.AccessPolicy | crud/movie/routes/movie_route.js:32-77 | GET routes admit MANAGER, ADMIN, EMPLOYEE and CUSTOMER; POST and PUT admit MANAGER, ADMIN and EMPLOYEE; DELETE only ADMIN; GUEST and DELETED_USER reach no handler |
| MovieRoute.CreateUnfolds | crud/movie/routes/movie_route.js:32-45 | POST / refuses a bad token with 401; otherwise it runs the checks and `validateFields` and then the gate |
| MovieRoute.InputErrorsBeforeRoleErrors | crud/movie/routes/movie_route.js:32-45 | with a valid token, a body failing any check gets 400 with the errors whatever the role |
| MovieRoute.UnlistedTypeIsRefused | crud/movie/routes/movie_route.js:39 | a missing or unlisted movie type stops POST / with a 400 |
| MovieRoute.TypeCheckRefuses | crud/movie/routes/movie_route.js:39 | the type check records an error for such a body |
| MovieRoute.UpdateGatesBeforeValidateFields | crud/movie/routes/movie_route.js:63-71 | PUT /:id reaches its handler exactly when the JWT and the save/update gate pass; the trailing `validateFields` never blocks |

## Findings

| source | as written | input that shows it | evidently intended | confidence | as-written member | corrected member |
|---|---|---|---|---|---|---|
| core/middleware/jwt_validator.js:37 | `!user.isEnabled` reads a property the query row does not have (the column is `is_enabled`), so it is always `undefined` | any stored user with `is_enabled = 'true'` and a token issued for it: answered 401 "Invalid JWT - User is not active." | test the row's `is_enabled` column | not executed | JwtValidator.AsWrittenRefusesEnabledUser | JwtValidator.IssuedTokenResolves |
| core/routes/user_route.js:21-28 | `isUserAllowed` and `isUserMeAllowed` are imported from role_validator, which does not export them, so the route arrays hold `undefined` | loading the user router: the array for GET / holds `undefined` and Express refuses to register it | import them from user_role_validator, which defines them | not executed | UserRoute.AsWrittenNotMountable | UserRoute.RoutesMountable |

The rest of the model uses the corrected members: `Router.Apply` resolves tokens with
`JwtValidator.Resolve`, and `UserRoute.Routes` uses the intended imports.

## Left out

- Bcrypt.CompareOther: bcrypt digests only the first 72 bytes of a password, and the register rule sets no maximum length, so two passwords sharing their first 72 bytes match the same digest; the stand-in hashes the whole plaintext and does not model this truncation.
- Bcrypt.HashSync: salts, cost and the 72-byte input limit are not modelled. The digest is a fixed injective tagging of the plaintext, which keeps compare-after-hash and rejection of other passwords.
- JwtGenerator.GenerateJwt: signing, the secret and expiry come from the environment and are not modelled. A token carries only the id and no signature, so the model has no unforgeable tokens: anyone can write the token for any id, and it verifies. Only the exact form `generateJWT` produces verifies (`JwtGenerator.VerifyExactly`), and expiry is not modelled.
- `Math.random()` and `new Date()` are parameters: the draw `n < 10^7` and the time `now`.
- Database failures outside the schema (lost connections, timeouts, disk errors) are not modelled. The insert and update failures modelled are the NOT NULL and UNIQUE constraints, values over 255 characters in a `varchar(255)` column, and an exhausted id serial.
- UserModel.Fits: the `password` column is not checked against 255 characters. In the source it always holds a 60-character bcrypt digest; the stand-in digest grows with the plaintext, so checking it would refuse long passwords the source stores. Postgres counts characters, and the model counts `char` values.
- Unhandled rejections: Node 15 and later exit the process on an unhandled rejection by default; the source fixes no Node version, and the model stops at "no response is sent" for that request. The same holds for the un-awaited `update` calls in the token handlers, which the model proves cannot fail.
- Asynchrony: un-awaited `update` calls are taken to finish before the response. In `updateMe` the un-awaited uniqueness checks return promises, which are always truthy, and that is what the model uses.
- Row order: SQL gives none; the model returns rows in ascending id order.
- UserRepository.IdParam: Postgres also accepts a sign and surrounding whitespace in an `int4` parameter; the model accepts digits only.
- FieldValidator.LooksLikeEmail: a simplified stand-in for express-validator's `isEmail`.
- FieldValidator.Failures: a check reads the request body only. express-validator's `check(field)` also looks in cookies, headers, route parameters and the query string. So a field sent only in the query string passes a check in the source but fails it in the model. Error objects carry field and message only; express-validator's `value` and `location` properties are not modelled.
- AuthRoute.LoginAdmission: holds for requests whose fields come in the body; with `?username=...&password=...` and an empty body the source passes both checks and `login` then answers 500.
- AuthRoute.RegisterAdmission: likewise stated for fields carried in the body only.
- Values.TextField: request-body values that are not strings (numbers, arrays, objects) are treated as absent where a handler reads them as text. JSON `null` and a missing field are both absent, so the rejection messages of `isRoleValid` and `isTypeValid` show "undefined" for either, where the source's template literal shows "null" for `null`.
- Who answers a thrown error: a gate that throws (`Step.Throw`) ends the chain. Express's default error handler, which turns the throw into the response, is not modelled.
- core/model/server.js:40-43 mounts only the auth and user routers. The movie router is modelled as if it were mounted.
- core/middleware/jwt_validator.js:6 requires a `../models/User` path that does not exist in the repository. Module resolution is not modelled.
- The migration (migrations/tables_management.js) names the verify column `verifyToken` and a movie schema path that does not exist. The model follows core/model/user.js and the queries, which use `verify_token`.
- Logging (`console.log`) and the server's port and CORS setup are not modelled.
