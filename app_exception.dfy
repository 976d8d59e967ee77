/** The application's exception classes: a message, the class name and an HTTP status code. */
module AppException {
  import opened Values

  /** An instance of AppException or one of its subclasses. */
  datatype AppException = AppException(name: string, message: string, statusCode: int)

  /** The five subclasses; each passes a fixed status code to the base constructor. */
  datatype Kind = NotFound | BadRequest | Unauthorized | Conflict | MethodNotAllowed

  function ClassName(k: Kind): string
  {
    match k
    case NotFound => "NotFoundException"
    case BadRequest => "BadRequestException"
    case Unauthorized => "UnauthorizedException"
    case Conflict => "ConflictException"
    case MethodNotAllowed => "MethodNotAllowedException"
  }

  /** The status code each subclass hands to `super`. */
  function SuperStatus(k: Kind): int
  {
    match k
    case NotFound => 404
    case BadRequest => 400
    case Unauthorized => 401
    case Conflict => 409
    case MethodNotAllowed => 405
  }

  /** The base constructor: `name` is the constructed class's name, a falsy status code becomes 500. */
  function Construct(name: string, message: string, statusCode: Option<int>): (e: AppException)
    ensures e.name == name && e.message == message
    ensures statusCode == None || statusCode == Some(0) ==> e.statusCode == 500
    ensures statusCode.Some? && statusCode.value != 0 ==> e.statusCode == statusCode.value
  {
    AppException(name, message, if statusCode.Some? && statusCode.value != 0 then statusCode.value else 500)
  }

  /** `new AppException(message, statusCode)`. */
  function NewAppException(message: string, statusCode: Option<int>): (e: AppException)
    ensures e.name == "AppException" && e.message == message
    ensures e.statusCode == 500 <==> statusCode == None || statusCode == Some(0) || statusCode == Some(500)
  {
    Construct("AppException", message, statusCode)
  }

  /** `new NotFoundException(message)` and its siblings. */
  function Raise(k: Kind, message: string): (e: AppException)
    ensures e.name == ClassName(k) && e.message == message
    ensures k == NotFound ==> e.statusCode == 404
    ensures k == BadRequest ==> e.statusCode == 400
    ensures k == Unauthorized ==> e.statusCode == 401
    ensures k == Conflict ==> e.statusCode == 409
    ensures k == MethodNotAllowed ==> e.statusCode == 405
  {
    Construct(ClassName(k), message, Some(SuperStatus(k)))
  }

  /** No subclass falls back to 500, and the status code tells the subclass apart. */
  lemma StatusIdentifiesKind(k1: Kind, k2: Kind, m1: string, m2: string)
    ensures Raise(k1, m1).statusCode != 500
    ensures Raise(k1, m1).statusCode == Raise(k2, m2).statusCode ==> k1 == k2
  {
  }
}
