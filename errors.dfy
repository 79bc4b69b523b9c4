/**
  The error taxonomy of the service (HttpError and its seven subclasses), the
  JSON response shape every handler writes, and the last-resort error
  middleware that turns an error passed to `next` into a response.
 */
module Errors {
  import opened Wrappers

  /** The seven subclasses of HttpError; an `instanceof` test in a handler asks for one of these. */
  datatype ErrorClass = NotFound | Validation | Database | BadRequest | Conflict | Forbidden | InternalServer

  /**
    An HttpError instance: the subclass it was built by (None for a bare
    `new HttpError(message, status)`), its message and its status.
   */
  datatype HttpError = HttpError(cls: Option<ErrorClass>, message: string, status: int)

  /** The status each subclass passes to the HttpError constructor. */
  function FixedStatus(c: ErrorClass): (s: int)
    ensures s in {400, 403, 404, 409, 500}
    ensures s == 404 <==> c == NotFound
    ensures s == 400 <==> c == Validation || c == BadRequest
    ensures s == 409 <==> c == Conflict
    ensures s == 403 <==> c == Forbidden
    ensures s == 500 <==> c == Database || c == InternalServer
  {
    match c
    case NotFound => 404
    case Validation => 400
    case Database => 500
    case BadRequest => 400
    case Conflict => 409
    case Forbidden => 403
    case InternalServer => 500
  }

  /** `new HttpError(message, status)`: a bare instance of the base class. */
  function NewHttpError(message: string, status: int): (e: HttpError)
    ensures e.message == message && e.status == status
    ensures forall c :: !InstanceOf(e, c)
  {
    HttpError(None, message, status)
  }

  /** `new NotFoundError(message)` and its siblings: the message given, the class's fixed status. */
  function New(c: ErrorClass, message: string): (e: HttpError)
    ensures e.message == message && e.status == FixedStatus(c)
    ensures InstanceOf(e, c)
    ensures forall d :: InstanceOf(e, d) ==> d == c
  {
    HttpError(Some(c), message, FixedStatus(c))
  }

  /** `e instanceof C` for one of the seven subclasses. */
  predicate InstanceOf(e: HttpError, c: ErrorClass)
  {
    e.cls == Some(c)
  }

  /** What a handler's `catch` block can receive. */
  datatype Thrown =
    | Http(err: HttpError)     // an HttpError thrown by the handler itself
    | StructFailure            // a superstruct StructError
    | Prisma(code: string)     // a PrismaClientKnownRequestError with its error code
    | Unexpected               // anything else

  /** The body of a response: `{ error: message }`, a JSON payload, or nothing (204). */
  datatype Body<+T> = ErrorJson(error: string) | Json(value: T) | NoContent

  datatype Response<+T> = Response(status: int, body: Body<T>)

  /** `res.status(err.status!).json({ error: err.message })`. */
  function ErrorResponse<T>(e: HttpError): (r: Response<T>)
    ensures r.status == e.status && r.body == ErrorJson(e.message)
  {
    Response(e.status, ErrorJson(e.message))
  }

  /**
    The catch block both delete handlers share: the error whose status and
    message are sent. A BadRequestError passes through, the P2025 "record
    not found" failure becomes a NotFoundError, and everything else (any
    other HttpError included) an InternalServerError.
   */
  function DeleteCatch(t: Thrown, notFound: string, failed: string): (e: HttpError)
    ensures t.Http? && InstanceOf(t.err, BadRequest) ==> e == t.err
    ensures t == Prisma("P2025") ==> e == New(NotFound, notFound)
    ensures !(t.Http? && InstanceOf(t.err, BadRequest)) && t != Prisma("P2025") ==> e == New(InternalServer, failed)
  {
    if t.Http? && InstanceOf(t.err, BadRequest) then t.err
    else if t.Prisma? && t.code == "P2025" then New(NotFound, notFound)
    else New(InternalServer, failed)
  }

  /** An error as the error middleware sees it: `status` may be undefined (a plain Error). */
  datatype ErrorLike = ErrorLike(status: Option<int>, message: string)

  function AsErrorLike(e: HttpError): ErrorLike
  {
    ErrorLike(Some(e.status), e.message)
  }

  const FallbackMessage := "Internal Server Error"

  /**
    The error middleware: `err.status || 500` and `err.message || 'Internal
    Server Error'`. A status of 0 is falsy and so also becomes 500.
   */
  function HandleError<T>(err: ErrorLike): (r: Response<T>)
    ensures r.status != 0
    ensures r.status == 500 <==> err.status.None? || err.status.value == 0 || err.status.value == 500
    ensures err.status.Some? && err.status.value != 0 ==> r.status == err.status.value
    ensures r.body.ErrorJson? && r.body.error != ""
    ensures err.message != "" ==> r.body.error == err.message
    ensures err.message == "" ==> r.body.error == FallbackMessage
  {
    var status := if err.status.Some? && err.status.value != 0 then err.status.value else 500;
    var message := if err.message != "" then err.message else FallbackMessage;
    Response(status, ErrorJson(message))
  }

  /**
    Every subclass instance reaching the middleware is answered with that
    subclass's status, and with its own message unless the message is empty.
   */
  lemma MiddlewareKeepsSubclassStatus<T>(c: ErrorClass, message: string)
    ensures var r: Response<T> := HandleError(AsErrorLike(New(c, message)));
      r.status == FixedStatus(c) && r.status in {400, 403, 404, 409, 500} &&
      r.body == ErrorJson(if message == "" then FallbackMessage else message)
  {
  }

  /** A handler answering a subclass error itself writes what the middleware would have written, for a non-empty message. */
  lemma ErrorResponseAgreesWithMiddleware<T>(c: ErrorClass, message: string)
    requires message != ""
    ensures ErrorResponse<T>(New(c, message)) == HandleError<T>(AsErrorLike(New(c, message)))
  {
  }
}
