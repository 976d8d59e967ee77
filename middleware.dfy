/** The shapes that Express middleware and handlers produce. */
module Middleware {
  import opened Values
  import opened AppException
  import opened UserModel

  /**
   * What one middleware does with a request: call `next` (exactly once),
   * write one response, or throw.
   */
  datatype Step =
    | Next
    | Respond(status: nat, msg: string)
    | Invalid(errors: seq<FieldError>)     // 400 with the list of validation errors
    | Throw(error: AppException)

  /** One entry of express-validator's error list: the field and its message. */
  datatype FieldError = FieldError(param: string, msg: string)

  /**
   * What a handler does with a request: one JSON response with a `msg` and a payload,
   * or `Unanswered` when an async handler without try/catch rejects. That rejection is
   * unhandled: no response is sent, and what the process then does is not modelled.
   */
  datatype Reply<P> = Json(status: nat, msg: string, payload: Option<P>) | Unanswered

  /** The message every role gate gives when no principal has been attached yet. */
  const JwtFirst := "To validate the role, it is required to validate the JWT before."

  /** The body of every 500 response the controllers send from a catch block. */
  const UnexpectedError := "Oops, an unexpected error happened. If the problem persists, contact an administrator (nachocamposdev@gmail.com)."

  function ServerError<P>(): Reply<P>
  {
    Json(500, UnexpectedError, None)
  }

  function Ok<P>(msg: string, payload: P): Reply<P>
  {
    Json(200, msg, Some(payload))
  }

  /**
   * The parts of an Express request the core reads: the `x-token` header, the parsed
   * body, the `:id` path parameter, and `req.user`, which `validateJWT` sets.
   */
  class Request {
    const token: Option<string>
    const body: Body
    const id: Option<string>
    var user: Option<UserRow>

    constructor (token: Option<string>, body: Body, id: Option<string>)
      ensures this.token == token && this.body == body && this.id == id && user == None
    {
      this.token := token;
      this.body := body;
      this.id := id;
      user := None;
    }
  }
}
