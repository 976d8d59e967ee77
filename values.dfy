/** JavaScript values, as far as the request handlers need them. */
module Values {

  datatype Option<+T> = None | Some(value: T)

  /** A value read from a parsed JSON body or from an object property. */
  datatype JsValue = Undefined | Null | Bool(b: bool) | Num(n: int) | Str(s: string) | Date(time: int)

  /** JavaScript truthiness for the values above. */
  predicate Truthy(v: JsValue)
  {
    match v
    case Undefined => false
    case Null => false
    case Bool(b) => b
    case Num(n) => n != 0
    case Str(s) => s != []
    case Date(_) => true
  }

  /** An optional text value (None stands for null or undefined) is truthy iff it is a non-empty string. */
  predicate Present(t: Option<string>)
  {
    t.Some? && t.value != []
  }

  /** The text carried by a JS value; any non-string is treated as absent. */
  function Text(v: JsValue): (t: Option<string>)
    ensures t.Some? <==> v.Str?
  {
    if v.Str? then Some(v.s) else None
  }

  /** The JS value of an optional text: null when absent. */
  function FromText(t: Option<string>): (v: JsValue)
    ensures Text(v) == t
    ensures Truthy(v) <==> Present(t)
  {
    if t.Some? then Str(t.value) else Null
  }

  /** `a ? a : b` on optional texts. */
  function OrElse(a: Option<string>, b: Option<string>): (r: Option<string>)
    ensures Present(a) ==> r == a
    ensures !Present(a) ==> r == b
  {
    if Present(a) then a else b
  }

  /** `a ? a : b` when the fallback is a plain string. */
  function OrElseText(a: Option<string>, b: string): (r: string)
    ensures Present(a) ==> r == a.value
    ensures !Present(a) ==> r == b
  {
    if Present(a) then a.value else b
  }

  /** `x ? x : null`: how the repositories write an optional token column. */
  function NullIfFalsy(t: Option<string>): (r: Option<string>)
    ensures r.Some? <==> Present(t)
    ensures r.Some? ==> r == t
  {
    if Present(t) then t else None
  }

  /** How a template literal shows an optional text. */
  function Show(t: Option<string>): string
  {
    if t.Some? then t.value else "undefined"
  }

  /** What an (async) validator does: resolve, or throw an Error carrying a message. */
  datatype Verdict = Accepted | Rejected(message: string)

  /** A parsed JSON request body. */
  type Body = map<string, JsValue>

  /** `req.body[key]`. */
  function Field(body: Body, key: string): JsValue
  {
    if key in body then body[key] else Undefined
  }

  /** The text of `req.body[key]`. */
  function TextField(body: Body, key: string): Option<string>
  {
    Text(Field(body, key))
  }
}
