/**
 * The part of Express routing the route files rely on: a route is a verb, a path
 * pattern, an array of middleware run in order, and a handler; a request goes to the
 * first registered route that matches it.
 */
module Router {
  import opened Values
  import opened UserModel
  import opened Middleware
  import UserRepository
  import FieldValidator
  import JwtValidator
  import UserRoleValidator
  import RoleValidator
  import MovieRoleValidator

  datatype Verb = GET | POST | PUT | DELETE

  /** A path segment of a route pattern: a literal, or a `:param`. */
  datatype Segment = Lit(s: string) | Param

  /** One entry of a route's middleware array. */
  datatype Link =
    | ValidateJwt
    | Validate(check: FieldValidator.Check)
    | ValidateFields
    | UserGate(u: UserRoleValidator.GateName)
    | RoleGate(r: RoleValidator.GateName)
    | MovieGate(m: MovieRoleValidator.GateName)
    | Missing(name: string)   // an imported name the module does not export: `undefined`

  datatype Route = Route(verb: Verb, pattern: seq<Segment>, chain: seq<Link>, handler: string)

  /** Express refuses to register a route whose middleware array holds `undefined`. */
  predicate Registrable(r: Route)
  {
    forall i :: 0 <= i < |r.chain| ==> !r.chain[i].Missing?
  }

  /** A router module loads only when every one of its routes registers. */
  predicate Mountable(routes: seq<Route>)
  {
    forall i :: 0 <= i < |routes| ==> Registrable(routes[i])
  }

  predicate PathMatches(pattern: seq<Segment>, path: seq<string>)
  {
    |pattern| == |path| &&
    forall i :: 0 <= i < |path| ==> if pattern[i].Lit? then pattern[i].s == path[i] else path[i] != ""
  }

  predicate RouteMatches(r: Route, verb: Verb, path: seq<string>)
  {
    r.verb == verb && PathMatches(r.pattern, path)
  }

  /** The index of the route a request reaches: the first in registration order that matches. */
  function Dispatch(routes: seq<Route>, verb: Verb, path: seq<string>): (k: Option<nat>)
    ensures k.Some? ==> k.value < |routes| && RouteMatches(routes[k.value], verb, path)
    ensures k.Some? ==> forall j :: 0 <= j < k.value ==> !RouteMatches(routes[j], verb, path)
    ensures k.None? ==> forall j :: 0 <= j < |routes| ==> !RouteMatches(routes[j], verb, path)
  {
    if |routes| == 0 then None
    else if RouteMatches(routes[0], verb, path) then Some(0)
    else match Dispatch(routes[1..], verb, path)
      case None => None
      case Some(k) => Some(k + 1)
  }

  /** The request as the chain sees it: the `x-token` header and the body. */
  datatype Env = Env(token: Option<string>, body: Body)

  /**
   * Where a chain has got to: still going (with the principal attached so far and the
   * validation errors recorded so far), stopped by a middleware, or never registered.
   */
  datatype Progress = Going(user: Option<UserRow>, errors: seq<FieldError>) | Stopped(step: Step) | Broken(name: string)

  /** A gate's step turned into progress: `next` keeps going, anything else stops. */
  function Gated(s: Step, user: Option<UserRow>, errors: seq<FieldError>): Progress
  {
    if s == Next then Going(user, errors) else Stopped(s)
  }

  /** One middleware applied to a request that is still going. */
  function Apply(link: Link, user: Option<UserRow>, errors: seq<FieldError>, env: Env, repo: UserRepository.Repository): Progress
    reads repo
    requires repo.Valid()
  {
    match link
    case ValidateJwt =>
      (match JwtValidator.Resolve(env.token, repo.rows)
       case Attach(u) => Going(Some(u), errors)
       case Refuse(msg) => Stopped(Respond(401, msg)))
    case Validate(c) => Going(user, errors + FieldValidator.CheckFailures(c, env.body, repo))
    case ValidateFields => Gated(FieldValidator.ValidateFields(errors), user, errors)
    case UserGate(g) => Gated(UserRoleValidator.Gate(g, user), user, errors)
    case RoleGate(g) => Gated(RoleValidator.Gate(g, user), user, errors)
    case MovieGate(g) => Gated(MovieRoleValidator.Gate(g, user), user, errors)
    case Missing(name) => Broken(name)
  }

  /** The chain run in order; a request that is still going at the end reaches the handler. */
  function Run(chain: seq<Link>, p: Progress, env: Env, repo: UserRepository.Repository): Progress
    reads repo
    requires repo.Valid()
    decreases |chain|
  {
    if |chain| == 0 || !p.Going? then p
    else Run(chain[1..], Apply(chain[0], p.user, p.errors, env, repo), env, repo)
  }

  /** What a route does with a fresh request: no principal, no errors yet. */
  function Serve(r: Route, env: Env, repo: UserRepository.Repository): Progress
    reads repo
    requires repo.Valid()
  {
    Run(r.chain, Going(None, []), env, repo)
  }

  /** Running two arrays one after the other is running their concatenation. */
  lemma {:induction false} RunAppend(a: seq<Link>, b: seq<Link>, p: Progress, env: Env, repo: UserRepository.Repository)
    requires repo.Valid()
    ensures Run(a + b, p, env, repo) == Run(b, Run(a, p, env, repo), env, repo)
    decreases |a|
  {
    if |a| == 0 {
      assert a + b == b;
    } else if !p.Going? {
      assert Run(b, p, env, repo) == p;
    } else {
      assert (a + b)[1..] == a[1..] + b;
      RunAppend(a[1..], b, Apply(a[0], p.user, p.errors, env, repo), env, repo);
    }
  }

  /** The errors a list of checks records, in order. */
  function AllFailures(checks: seq<FieldValidator.Check>, body: Body, repo: UserRepository.Repository): (errs: seq<FieldError>)
    reads repo
    requires repo.Valid()
    ensures |errs| == 0 <==> forall i :: 0 <= i < |checks| ==> |FieldValidator.CheckFailures(checks[i], body, repo)| == 0
  {
    if |checks| == 0 then []
    else FieldValidator.CheckFailures(checks[0], body, repo) + AllFailures(checks[1..], body, repo)
  }

  function Validations(checks: seq<FieldValidator.Check>): (chain: seq<Link>)
    ensures |chain| == |checks| && forall i :: 0 <= i < |checks| ==> chain[i] == Validate(checks[i])
  {
    if |checks| == 0 then [] else [Validate(checks[0])] + Validations(checks[1..])
  }

  /** Checks never stop a request: they only add their errors. */
  lemma {:induction false} RunChecks(checks: seq<FieldValidator.Check>, user: Option<UserRow>, errors: seq<FieldError>, env: Env, repo: UserRepository.Repository)
    requires repo.Valid()
    ensures Run(Validations(checks), Going(user, errors), env, repo) == Going(user, errors + AllFailures(checks, env.body, repo))
    decreases |checks|
  {
    if |checks| == 0 {
      assert errors + [] == errors;
    } else {
      var here := FieldValidator.CheckFailures(checks[0], env.body, repo);
      RunChecks(checks[1..], user, errors + here, env, repo);
      assert errors + here + AllFailures(checks[1..], env.body, repo) == errors + AllFailures(checks, env.body, repo);
    }
  }

  /** A gate link passes a principal; every other link is no gate. */
  predicate GatePasses(link: Link, user: Option<UserRow>)
  {
    match link
    case UserGate(g) => UserRoleValidator.Gate(g, user) == Next
    case RoleGate(g) => RoleValidator.Gate(g, user) == Next
    case MovieGate(g) => MovieRoleValidator.Gate(g, user) == Next
    case _ => true
  }

  /**
   * In a chain that validates the JWT at most at its head, a request that reaches the
   * handler carries one principal throughout, and every gate of the chain passed it.
   * When the chain starts with `validateJWT`, that principal is the one the token resolves to.
   */
  lemma {:induction false} HandlerPassedEveryGate(chain: seq<Link>, p: Progress, env: Env, repo: UserRepository.Repository)
    requires repo.Valid() && p.Going?
    requires forall i :: 0 < i < |chain| ==> chain[i] != ValidateJwt
    ensures var q := Run(chain, p, env, repo);
      q.Going? ==>
        && (forall i :: 0 <= i < |chain| ==> GatePasses(chain[i], q.user))
        && (|chain| == 0 || chain[0] != ValidateJwt ==> q.user == p.user)
        && (|chain| > 0 && chain[0] == ValidateJwt ==> q.user.Some? && JwtValidator.Resolve(env.token, repo.rows) == JwtValidator.Attach(q.user.value))
    decreases |chain|
  {
    if |chain| > 0 {
      var p' := Apply(chain[0], p.user, p.errors, env, repo);
      var q := Run(chain, p, env, repo);
      assert q == Run(chain[1..], p', env, repo);
      if p'.Going? {
        HandlerPassedEveryGate(chain[1..], p', env, repo);
        if q.Going? {
          assert q.user == p'.user;
          forall i | 0 <= i < |chain| ensures GatePasses(chain[i], q.user) {
            if i > 0 {
              assert chain[i] == chain[1..][i - 1];
            }
          }
        }
      } else {
        assert q == p';
      }
    }
  }

  /** A run of checks closed by `validateFields` lets the request on exactly when no check recorded an error. */
  lemma RunChecksThenValidate(checks: seq<FieldValidator.Check>, user: Option<UserRow>, env: Env, repo: UserRepository.Repository)
    requires repo.Valid()
    ensures var errs := AllFailures(checks, env.body, repo);
      Run(Validations(checks) + [ValidateFields], Going(user, []), env, repo)
        == if |errs| == 0 then Going(user, []) else Stopped(Invalid(errs))
  {
    RunAppend(Validations(checks), [ValidateFields], Going(user, []), env, repo);
    RunChecks(checks, user, [], env, repo);
    var errs := AllFailures(checks, env.body, repo);
    assert [] + errs == errs;
    assert [ValidateFields][1..] == [];
  }
}
