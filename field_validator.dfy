/**
 * The request checks the route files declare (`check(field, message).rule()...`) and
 * core/middleware/field_validator.js, which answers 400 when any of them recorded an error.
 */
module FieldValidator {
  import opened Values
  import opened Middleware
  import Decimal
  import UserRepository
  import DbAuthValidator
  import DbMovieValidator

  /** The string form the standard validators see: null and undefined become "". */
  function AsString(v: JsValue): (s: string)
    ensures v.Str? ==> s == v.s
    ensures v.Undefined? || v.Null? ==> s == ""
  {
    match v
    case Undefined => ""
    case Null => ""
    case Bool(b) => if b then "true" else "false"
    case Num(n) => if n < 0 then "-" + Decimal.NumberToString(-n) else Decimal.NumberToString(n)
    case Str(s) => s
    case Date(_) => ""
  }

  predicate IsAlphanumericChar(c: char)
  {
    'a' <= c <= 'z' || 'A' <= c <= 'Z' || '0' <= c <= '9'
  }

  /** A stand-in for `isEmail`: one '@' after a non-empty local part, and a domain with an inner dot. */
  predicate LooksLikeEmail(s: string)
  {
    exists i :: 0 < i < |s| && s[i] == '@' && '@' !in s[..i] && DomainLike(s[i + 1..])
  }

  predicate DomainLike(d: string)
  {
    '@' !in d && exists j :: 0 < j < |d| - 1 && d[j] == '.'
  }

  /** The validators the route files chain onto a `check`. */
  datatype Rule =
    | NotEmpty
    | MinLength(min: nat)
    | Alphanumeric
    | IsEmail
    | IsBoolean
    | RoleValid        // custom(isRoleValid)
    | TypeValid        // custom(isTypeValid)
    | UsernameUnique   // custom(isUsernameUnique)
    | EmailUnique      // custom(isEmailUnique)

  /** A custom validator's verdict on the raw value; the standard validators have none. */
  function CustomVerdict(rule: Rule, v: JsValue, repo: UserRepository.Repository): Verdict
    reads repo
    requires repo.Valid()
  {
    match rule
    case RoleValid => DbAuthValidator.IsRoleValid(Text(v))
    case TypeValid => DbMovieValidator.IsTypeValid(Text(v))
    case UsernameUnique => DbAuthValidator.IsUsernameUnique(repo, Text(v))
    case EmailUnique => DbAuthValidator.IsEmailUnique(repo, Text(v))
    case _ => Accepted
  }

  /** Whether one rule accepts the value of its field. */
  predicate Passes(rule: Rule, v: JsValue, repo: UserRepository.Repository)
    reads repo
    requires repo.Valid()
  {
    match rule
    case NotEmpty => AsString(v) != ""
    case MinLength(n) => |AsString(v)| >= n
    case Alphanumeric => AsString(v) != "" && forall i :: 0 <= i < |AsString(v)| ==> IsAlphanumericChar(AsString(v)[i])
    case IsEmail => LooksLikeEmail(AsString(v))
    case IsBoolean => AsString(v) in {"true", "false", "1", "0"}
    case _ => CustomVerdict(rule, v, repo).Accepted?
  }

  /** `check(field, message)` followed by its rules. */
  datatype Check = Check(field: string, message: string, rules: seq<Rule>)

  /**
   * The errors a check records: one per failing rule, in order, since a chain does not
   * stop at its first failure. A failing custom rule carries the message it threw.
   */
  function Failures(field: string, message: string, rules: seq<Rule>, v: JsValue, repo: UserRepository.Repository): (errs: seq<FieldError>)
    reads repo
    requires repo.Valid()
    ensures |errs| <= |rules|
    ensures |errs| == 0 <==> forall r :: r in rules ==> Passes(r, v, repo)
    ensures forall e :: e in errs ==> e.param == field
  {
    if |rules| == 0 then []
    else
      var rest := Failures(field, message, rules[1..], v, repo);
      assert forall r :: r in rules <==> r == rules[0] || r in rules[1..];
      if Passes(rules[0], v, repo) then rest
      else
        var verdict := CustomVerdict(rules[0], v, repo);
        [FieldError(field, if verdict.Rejected? then verdict.message else message)] + rest
  }

  function CheckFailures(c: Check, body: Body, repo: UserRepository.Repository): seq<FieldError>
    reads repo
    requires repo.Valid()
  {
    Failures(c.field, c.message, c.rules, Field(body, c.field), repo)
  }

  /** `validateFields`: 400 with the recorded errors when there are any, `next` otherwise. */
  function ValidateFields(errors: seq<FieldError>): (s: Step)
    ensures s == Next <==> |errors| == 0
    ensures s != Next ==> s == Invalid(errors)
  {
    if |errors| != 0 then Invalid(errors) else Next
  }

  /** A check with one or two rules records nothing exactly when each of its rules passes. */
  lemma CheckPasses(c: Check, body: Body, repo: UserRepository.Repository)
    requires repo.Valid() && 1 <= |c.rules| <= 2
    ensures |c.rules| == 1 ==> (|CheckFailures(c, body, repo)| == 0 <==> Passes(c.rules[0], Field(body, c.field), repo))
    ensures |c.rules| == 2 ==> (|CheckFailures(c, body, repo)| == 0 <==>
      Passes(c.rules[0], Field(body, c.field), repo) && Passes(c.rules[1], Field(body, c.field), repo))
  {
    assert c.rules[0] in c.rules;
    if |c.rules| == 2 {
      assert c.rules[1] in c.rules;
      assert forall r :: r in c.rules ==> r == c.rules[0] || r == c.rules[1];
    }
  }

  /** `custom(isTypeValid)` passes exactly when `isTypeValid` accepts the text of the value. */
  lemma TypeValidPasses(v: JsValue, repo: UserRepository.Repository)
    requires repo.Valid()
    ensures Passes(TypeValid, v, repo) <==> DbMovieValidator.IsTypeValid(Text(v)).Accepted?
  {
  }
}
