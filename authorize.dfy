/** The role gate placed in front of routes: `authorize(...roles)` lets a
    request through exactly when the authenticated user's role is one of
    the listed roles, and answers 403 otherwise. */
module Authorize {
  import opened Common
  import opened JsValues
  import opened Http

  /** The gate as written: the 403 goes through `sendError(res, "Forbidden",
      403)`, and since a bare string has no `message` property the body
      reads "Internal Server Error". */
  function Authorize(roles: seq<string>, role: string): (r: Reply)
    ensures r.Next? <==> role in roles
    ensures r.Respond? ==> r == SendError(BareString("Forbidden"), 403)
  {
    if role !in roles then SendError(BareString("Forbidden"), 403) else Next
  }

  /** A rejected request is told "Internal Server Error", not "Forbidden". */
  lemma ForbiddenReadsAsInternalError(role: string)
    ensures Authorize([], role) == Respond(403, map["success" := Bool(false),
                                                    "message" := Str("Internal Server Error"),
                                                    "errors" := Null])
  {
  }

  /** The gate as evidently intended: the 403 carries the message
      "Forbidden". */
  function AuthorizeIntended(roles: seq<string>, role: string): (r: Reply)
    ensures r.Next? <==> role in roles
    ensures r.Respond? ==> r.status == 403 && Get(r.body, "message") == Str("Forbidden")
    ensures r.Respond? ==> Get(r.body, "success") == Bool(false)
  {
    if role !in roles then SendError(ErrorObject(AppError("Forbidden", 403)), 403) else Next
  }

  /** With no roles listed every user is turned away; widening the list
      never turns away a user it let through before. Both gates decide
      alike (they differ only in the body of the 403), so this holds for
      the gate as written and as intended. */
  lemma AuthorizeMonotone(roles: seq<string>, more: seq<string>, role: string)
    ensures Authorize([], role).Respond? && AuthorizeIntended([], role).Respond?
    ensures Authorize(roles, role).Next? ==> Authorize(roles + more, role).Next?
    ensures AuthorizeIntended(roles, role).Next? ==> AuthorizeIntended(roles + more, role).Next?
    ensures Authorize(roles, role).Next? <==> AuthorizeIntended(roles, role).Next?
  {
  }
}
