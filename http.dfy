/** What an Express middleware or controller does with a request: pass it
    on by calling `next()` once, or answer it with a status and a JSON body
    (and then never call `next()`). `sendError` and the final error
    handler are modelled only so far as the role gate's 403 body and the
    shapers' refusals (which reach the handler as plain errors and answer
    500) need them. */
module Http {
  import opened Common
  import opened JsValues

  datatype Reply =
    | Next
    | Respond(status: int, body: JsObject)

  /** The `error` argument of `sendError`: the code passes either a bare
      string or an application error object. */
  datatype ErrorArg = BareString(text: string) | ErrorObject(error: AppError)

  /** `error.message || 'Internal Server Error'`: a string has no `message`
      property, and an empty message is falsy. */
  function ErrorMessage(e: ErrorArg): (m: string)
    ensures e.BareString? ==> m == "Internal Server Error"
    ensures e.ErrorObject? && e.error.message != "" ==> m == e.error.message
    ensures m != ""
  {
    match e
    case BareString(_) => "Internal Server Error"
    case ErrorObject(err) => if err.message == "" then "Internal Server Error" else err.message
  }

  /** sendError(res, error, status): `{ success: false, message, errors }`
      with `errors` null (neither argument kind carries an error list). */
  function SendError(e: ErrorArg, status: int): (r: Reply)
    ensures r.Respond? && r.status == status
    ensures r.body == map["success" := Bool(false), "message" := Str(ErrorMessage(e)), "errors" := Null]
  {
    Respond(status, map["success" := Bool(false), "message" := Str(ErrorMessage(e)), "errors" := Null])
  }

  /** What route code throws: a plain `Error` (no status) or an `AppError`. */
  datatype Thrown = PlainError(message: string) | Raised(error: AppError)

  /** The final error handler: status `err.status || 500`, message
      `err.message || 'Internal Server Error'`, errors `err.errors || null`. */
  function ErrorHandler(t: Thrown): (r: Reply)
    ensures r.Respond?
    ensures t.PlainError? ==> r.status == 500
    ensures t.Raised? ==> r.status == (if t.error.status == 0 then 500 else t.error.status)
    ensures r.status != 0
    ensures Get(r.body, "success") == Bool(false) && Get(r.body, "errors") == Null
    ensures var m := if t.PlainError? then t.message else t.error.message;
            Get(r.body, "message") == Str(if m == "" then "Internal Server Error" else m)
  {
    var (status, message) := match t
      case PlainError(m) => (500, m)
      case Raised(e) => (if e.status == 0 then 500 else e.status, e.message);
    Respond(status, map["success" := Bool(false),
                        "message" := Str(if message == "" then "Internal Server Error" else message),
                        "errors" := Null])
  }
}
