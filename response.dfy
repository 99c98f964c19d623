/** The JSON envelopes every handler answers with (`utils/response.js`), and
    the errors a handler's `catch` block turns into a 500 answer. A reply is
    the HTTP status and the body; `D` is the type of the payloads one
    controller sends. */
module Response {
  import opened Wrappers

  /** The three body shapes of the backend:
      `{success: false, message, errors}` from `errorResponse`,
      `{success: true, message, data}` from `successResponse`, and
      `{success: false, message, error}` from the error-handling middleware,
      whose `error` is the error itself or `{}` (None). */
  datatype Body<D> =
    | Failure(message: string, errors: Option<D>)
    | Success(message: string, data: Option<D>)
    | Crash(message: string, error: Option<ErrorValue>)
  {
    predicate Succeeded() {
      Success?
    }
  }

  datatype Reply<D> = Reply(status: int, body: Body<D>)

  /** An error object as the error-handling middleware sees it. */
  datatype ErrorValue = ErrorValue(statusCode: Option<int>, message: Option<string>)

  /** `errorResponse(res, statusCode, message, errors = null)`. */
  function ErrorResponse<D>(status: int, message: string, errors: Option<D> := None): (r: Reply<D>)
    ensures r.status == status && !r.body.Succeeded()
    ensures r.body == Failure(message, errors)
  {
    Reply(status, Failure(message, errors))
  }

  /** `successResponse(res, statusCode, message, data = null)`. */
  function SuccessResponse<D>(status: int, message: string, data: Option<D> := None): (r: Reply<D>)
    ensures r.status == status && r.body.Succeeded()
    ensures r.body == Success(message, data)
  {
    Reply(status, Success(message, data))
  }

  /** The refusals and successes are told apart by the body's `success` flag alone. */
  lemma EnvelopesDiffer<D>(s1: int, m1: string, e: Option<D>, s2: int, m2: string, d: Option<D>)
    ensures ErrorResponse(s1, m1, e) != SuccessResponse(s2, m2, d)
  {
  }

  // ---------------------------------------------------------------------------
  // Errors thrown inside a handler

  /** What can throw inside a handler's `try` block:
      reading a property of a `null` lookup result (a TypeError),
      a schema validator rejecting a document,
      a unique index rejecting a second document with the same key,
      and the store refusing a negative `skip`. */
  datatype Fault =
    | NullRead(property: string)
    | Invalid(model: string, path: string, detail: string)
    | DuplicateKey(index: string)
    | NegativeSkip

  /** `error.message` of the thrown error. The prefix each handler puts in
      front of it is exact; the library's wording after it is approximated. */
  function FaultMessage(f: Fault): string {
    match f
    case NullRead(p) => "Cannot read properties of null (reading '" + p + "')"
    case Invalid(m, p, d) => m + " validation failed: " + p + ": " + d
    case DuplicateKey(k) => "E11000 duplicate key error dup key: " + k
    case NegativeSkip => "skip value must be non-negative"
  }

  /** What a store write that validates its document gives: the stored value, or what it threw. */
  datatype Outcome<T> = Done(value: T) | Threw(fault: Fault)

  /** A handler's `catch (error) { errorResponse(res, 500, prefix + error.message) }`. */
  function ServerError<D>(prefix: string, f: Fault): (r: Reply<D>)
    ensures r.status == 500 && !r.body.Succeeded()
    ensures r.body.message == prefix + FaultMessage(f)
  {
    ErrorResponse(500, prefix + FaultMessage(f))
  }
}
