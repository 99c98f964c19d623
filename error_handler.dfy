/** The Express error-handling middleware (`middleware/errorHandler.js`): the
    last resort for an error no handler caught. */
module ErrorHandler {
  import opened Wrappers
  import opened Response

  const DefaultMessage := "Internal Server Error"

  /** `error.statusCode || 500`. */
  function StatusOf(err: ErrorValue): (s: int)
    ensures s != 0
    ensures err.statusCode.Some? && err.statusCode.value != 0 ==> s == err.statusCode.value
    ensures (err.statusCode.None? || err.statusCode.value == 0) ==> s == 500
  {
    match err.statusCode
    case Some(c) => if c != 0 then c else 500
    case None => 500
  }

  /** `error.message || 'Internal Server Error'`. */
  function MessageOf(err: ErrorValue): (m: string)
    ensures m != ""
    ensures err.message.Some? && err.message.value != "" ==> m == err.message.value
    ensures (err.message.None? || err.message.value == "") ==> m == DefaultMessage
  {
    match err.message
    case Some(t) => if t != "" then t else DefaultMessage
    case None => DefaultMessage
  }

  /** The answer for an uncaught error: always `success: false`; the error
      itself is echoed only when NODE_ENV is 'development', otherwise `{}`. */
  function HandleError<D>(err: ErrorValue, nodeEnv: Option<string>): (r: Reply<D>)
    ensures r.status == StatusOf(err) && !r.body.Succeeded() && r.body.Crash?
    ensures r.body.message == MessageOf(err)
    ensures r.body.error.Some? <==> nodeEnv == Some("development")
    ensures r.body.error.Some? ==> r.body.error.value == err
  {
    Reply(StatusOf(err), Crash(MessageOf(err), if nodeEnv == Some("development") then Some(err) else None))
  }

  /** Outside development nothing of the error but its status and message leaves
      the server: two errors with the same status and message give the same answer. */
  lemma NoDetailOutsideDevelopment<D>(a: ErrorValue, b: ErrorValue, nodeEnv: Option<string>)
    requires nodeEnv != Some("development")
    requires StatusOf(a) == StatusOf(b) && MessageOf(a) == MessageOf(b)
    ensures HandleError<D>(a, nodeEnv) == HandleError<D>(b, nodeEnv)
  {
  }
}
