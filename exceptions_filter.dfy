/** `AllExceptionsFilter`: the catch-all filter that turns an exception into
    the JSON reply `{ statusCode, timestamp, path, error }`. The application
    does not register it (its `useGlobalFilters` line is commented out), so
    this module describes the filter on its own. */
module AllExceptionsFilter {
  import opened Common

  /** What `exception.getResponse()` gives: the string an `HttpException`
      was built with, or the object Nest builds for its named subclasses. */
  datatype Body =
    | Plain(message: Message)
    | Described(statusCode: int, message: Message, error: string)

  const EXPIRED_MESSAGE := "JWT Refresh_token or JWT Acces_token has expired"
  const INTERNAL_MESSAGE := "Internal server error"

  /** The reply the filter writes. `timestamp` is `new Date().toISOString()`,
      taken as a parameter. */
  datatype Reply = Reply(statusCode: int, timestamp: string, path: string, error: Body)

  /** The status and message chosen for an exception. */
  function Classify(e: Exception): (c: (int, Body))
    ensures StatusOf(e).Some? ==> c.0 == StatusOf(e).value
    ensures e.HttpException? ==> c.1 == Plain(e.body)
    ensures e.NotFoundException? ==> c.1 == Described(NOT_FOUND, e.body, "Not Found")
    ensures e.TokenExpiredError? ==> c == (NOT_ACCEPTABLE, Plain(Text(EXPIRED_MESSAGE)))
    ensures StatusOf(e).None? && !e.TokenExpiredError? ==> c == (INTERNAL_SERVER_ERROR, Plain(Text(INTERNAL_MESSAGE)))
  {
    match e
    case HttpException(s, m) => (s, Plain(m))
    case NotFoundException(m) => (NOT_FOUND, Described(NOT_FOUND, m, "Not Found"))
    case TokenExpiredError => (NOT_ACCEPTABLE, Plain(Text(EXPIRED_MESSAGE)))
    case _ => (INTERNAL_SERVER_ERROR, Plain(Text(INTERNAL_MESSAGE)))
  }

  /** The message of a library or runtime error never reaches the client:
      every non-HTTP error gets one of two fixed texts, and the status alone
      tells which. */
  lemma NonHttpErrorsMasked(e: Exception)
    requires StatusOf(e).None?
    ensures Classify(e).1 == Plain(Text(if Classify(e).0 == NOT_ACCEPTABLE then EXPIRED_MESSAGE else INTERNAL_MESSAGE))
    ensures Classify(e).0 == NOT_ACCEPTABLE <==> e.TokenExpiredError?
  {
  }

  /** The status is the HTTP exception's own exactly when the exception has
      one; otherwise it is 406 or 500. */
  lemma StatusAgrees(e: Exception)
    ensures StatusOf(e).Some? ==> Classify(e).0 == StatusOf(e).value
    ensures StatusOf(e).None? ==> Classify(e).0 in {NOT_ACCEPTABLE, INTERNAL_SERVER_ERROR}
  {
  }

  /** The response object of the request. */
  class HttpResponse {
    var sent: Option<Reply>

    constructor()
      ensures sent == None
    {
      sent := None;
    }

    /** `catch(exception, host)`: classify the exception in step-by-step
        assignments, then send the reply. */
    method Catch(exception: Exception, url: string, timestamp: string)
      modifies this
      ensures sent == Some(Reply(Classify(exception).0, timestamp, url, Classify(exception).1))
    {
      var status: int;
      var message: Body;
      if exception.HttpException? || exception.NotFoundException? {
        status := StatusOf(exception).value;
        message := if exception.HttpException? then Plain(exception.body)
                   else Described(NOT_FOUND, exception.body, "Not Found");
      } else if exception.TokenExpiredError? {
        status := NOT_ACCEPTABLE;
        message := Plain(Text(EXPIRED_MESSAGE));
      } else {
        status := INTERNAL_SERVER_ERROR;
        message := Plain(Text(INTERNAL_MESSAGE));
      }
      sent := Some(Reply(status, timestamp, url, message));
    }
  }
}
