/** Values shared by every service: optional values, results, and the
    exceptions the services throw, catch and re-wrap. */
module Common {

  datatype Option<T> = None | Some(value: T) {
    function GetOr(default: T): T {
      match this
      case Some(v) => v
      case None => default
    }
  }

  /** The HTTP status codes (Nest's `HttpStatus`) that the core uses. */
  const NO_CONTENT := 204
  const BAD_REQUEST := 400
  const UNAUTHORIZED := 401
  const FORBIDDEN := 403
  const NOT_FOUND := 404
  const NOT_ACCEPTABLE := 406
  const TOO_MANY_REQUESTS := 429
  const INTERNAL_SERVER_ERROR := 500
  const NOT_IMPLEMENTED := 501

  /** What a service can throw. `HttpException` and its subclass
      `NotFoundException` carry a status; the others are errors raised by
      the runtime or by a library. */
  datatype Exception =
    | HttpException(status: int, body: Message)
    | NotFoundException(body: Message)   // Nest's subclass, status 404
    | TypeError(property: string)        // a property read on null or undefined
    | TokenExpiredError                  // jsonwebtoken: the token's exp has passed
    | JsonWebTokenError(reason: string)  // jsonwebtoken: any other verification failure
    | FirebaseError(code: string)        // firebase-admin, e.g. "auth/user-not-found"
    | CastError(value: string)           // Mongoose cannot cast an id to an ObjectId
    | RequestError(reason: string)       // an outbound HTTP call failed
    | ValidationError(path: string)      // Mongoose refuses to save: a required field is missing or empty

  /** The message of an exception. A `catch` that builds a new exception
      from the caught one keeps the caught one as the cause, so re-wrapping
      stays visible: `Quoted` is `${prefix}${err}` (the error's name and
      message), `Prefixed` is `${prefix}${err.message}`. */
  datatype Message =
    | Text(text: string)
    | Quoted(prefix: string, cause: Exception)
    | Prefixed(prefix: string, cause: Exception)

  datatype Result<T> = Ok(value: T) | Err(error: Exception)

  /** The status an exception reports, when it is an `HttpException`. */
  function StatusOf(e: Exception): Option<int> {
    match e
    case HttpException(s, _) => Some(s)
    case NotFoundException(_) => Some(NOT_FOUND)
    case _ => None
  }

  /** `catch (err) { throw new HttpException(`prefix${err}`, status) }`
      around an operation whose outcome is `r`. */
  function Rethrow<T>(r: Result<T>, status: int, prefix: string): (out: Result<T>)
    ensures r.Ok? ==> out == r
    ensures r.Err? ==> out.Err? && StatusOf(out.error) == Some(status)
                       && out.error.body == Quoted(prefix, r.error)
  {
    match r
    case Ok(v) => Ok(v)
    case Err(e) => Err(HttpException(status, Quoted(prefix, e)))
  }

  /** `error.message` of a caught exception: the text an `HttpException`
      was built with, or the runtime's message for any other error. */
  function MessageOf(e: Exception): Message {
    match e
    case HttpException(_, m) => m
    case NotFoundException(m) => m
    case _ => Prefixed("", e)
  }

  /** `catch (error) { throw new HttpException(error.message, status) }` */
  function RethrowMessage<T>(r: Result<T>, status: int): (out: Result<T>)
    ensures r.Ok? ==> out == r
    ensures r.Err? ==> out.Err? && StatusOf(out.error) == Some(status) && out.error.body == MessageOf(r.error)
  {
    match r
    case Ok(v) => Ok(v)
    case Err(e) => Err(HttpException(status, MessageOf(e)))
  }

  /** The status of a failed result (none for a success or a non-HTTP error). */
  function FailureStatus<T>(r: Result<T>): Option<int> {
    if r.Err? then StatusOf(r.error) else None
  }

  /** JavaScript truthiness of an optional string: `undefined`, `null`
      and `''` are falsy. */
  predicate Truthy(s: Option<string>) {
    s.Some? && s.value != ""
  }

  /** `Math.floor(r * n)` for a draw `r` of `Math.random()`, which lies in [0, 1). */
  function FloorScaled(r: real, n: nat): (k: int)
    requires 0.0 <= r < 1.0
    ensures n > 0 ==> 0 <= k < n
  {
    ScaledBelow(r, n);
    (r * (n as real)).Floor
  }

  lemma ScaledBelow(r: real, n: nat)
    requires 0.0 <= r < 1.0
    ensures 0.0 <= r * (n as real)
    ensures n > 0 ==> r * (n as real) < n as real
  {
    if n > 0 {
      assert (1.0 - r) * (n as real) > 0.0;
    }
  }

  /** A number written in decimal, as a template literal shows it. */
  function DecimalOf(n: int): string {
    if n < 0 then "-" + Digits(-n) else Digits(n)
  }

  function Digits(n: nat): string
    decreases n
  {
    if n < 10 then [('0' as int + n) as char]
    else Digits(n / 10) + [('0' as int + n % 10) as char]
  }
}
