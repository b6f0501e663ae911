/** The request-body shapers of the task routes. Each reads a few
    properties of the body, throws a plain `Error` when a required one is
    absent, and otherwise returns a fresh object holding exactly those
    properties. */
module TaskDto {
  import opened Common
  import opened JsValues
  import opened Http

  /** toCreateTaskDto: title and description must be truthy; a falsy
      `assigned_user_id` (absent, null, 0, "") becomes null. */
  function ToCreateTaskDto(body: JsObject): (r: Result<JsObject, string>)
    ensures r.Ok? <==> !Falsy(Get(body, "title")) && !Falsy(Get(body, "description"))
    ensures r.Err? ==> r.error == "Title and description are required"
    ensures r.Ok? ==> r.value.Keys == {"title", "description", "assigned_user_id"}
    ensures r.Ok? ==> r.value["title"] == body["title"] && r.value["description"] == body["description"]
    ensures r.Ok? ==> (r.value["assigned_user_id"] == Null <==> Falsy(Get(body, "assigned_user_id")))
    ensures (r.Ok? && !Falsy(Get(body, "assigned_user_id"))) ==>
              r.value["assigned_user_id"] == body["assigned_user_id"]
  {
    var title := Get(body, "title");
    var description := Get(body, "description");
    var assignee := Get(body, "assigned_user_id");
    if Falsy(title) || Falsy(description) then Err("Title and description are required")
    else Ok(map["title" := title, "description" := description,
                "assigned_user_id" := if Falsy(assignee) then Null else assignee])
  }

  /** toUpdateTaskDto: status must be truthy and version present; a version
      of 0 is accepted, since only undefined and null are refused. */
  function ToUpdateTaskDto(body: JsObject): (r: Result<JsObject, string>)
    ensures r.Ok? <==> !Falsy(Get(body, "status")) && !Nullish(Get(body, "version"))
    ensures r.Err? ==> r.error == "Status and version are required"
    ensures r.Ok? ==> r.value == map["status" := body["status"], "version" := body["version"]]
  {
    var status := Get(body, "status");
    var version := Get(body, "version");
    if Falsy(status) || Nullish(version) then Err("Status and version are required")
    else Ok(map["status" := status, "version" := version])
  }

  /** toUpdateTaskByIdDto: title and description must be truthy;
      `newComment` is copied whether present or not (an absent one is an
      own property holding undefined). Any other property, `version`
      included, is dropped. */
  function ToUpdateTaskByIdDto(body: JsObject): (r: Result<JsObject, string>)
    ensures r.Ok? <==> !Falsy(Get(body, "title")) && !Falsy(Get(body, "description"))
    ensures r.Err? ==> r.error == "title and description are required"
    ensures r.Ok? ==> r.value.Keys == {"title", "description", "newComment"}
    ensures r.Ok? ==> forall k :: k in r.value ==> r.value[k] == Get(body, k)
  {
    var title := Get(body, "title");
    var description := Get(body, "description");
    if Falsy(title) || Falsy(description) then Err("title and description are required")
    else Ok(map["title" := title, "description" := description, "newComment" := Get(body, "newComment")])
  }

  /** toAssignTaskDto: user_id must be truthy (so user 0 is refused) and
      version present. */
  function ToAssignTaskDto(body: JsObject): (r: Result<JsObject, string>)
    ensures r.Ok? <==> !Falsy(Get(body, "user_id")) && !Nullish(Get(body, "version"))
    ensures r.Err? ==> r.error == "user_id and version are required"
    ensures r.Ok? ==> r.value == map["user_id" := body["user_id"], "version" := body["version"]]
  {
    var userId := Get(body, "user_id");
    var version := Get(body, "version");
    if Falsy(userId) || Nullish(version) then Err("user_id and version are required")
    else Ok(map["user_id" := userId, "version" := version])
  }

  /** The two shapers that take a version test it differently from the
      other fields: version 0 is accepted while user id 0 is refused. */
  lemma ZeroVersionAcceptedZeroUserRefused()
    ensures ToUpdateTaskDto(map["status" := Str("DONE"), "version" := Num(0)]).Ok?
    ensures ToAssignTaskDto(map["user_id" := Num(0), "version" := Num(1)]).Err?
    ensures ToAssignTaskDto(map["user_id" := Num(2), "version" := Num(0)]).Ok?
  {
  }

  /** A refused body is answered by the error handler with status 500 and
      the shaper's message. */
  lemma RefusedBodyIs500(body: JsObject)
    ensures ToCreateTaskDto(body).Err? ==>
              ErrorHandler(PlainError(ToCreateTaskDto(body).error)) ==
              Respond(500, map["success" := Bool(false),
                               "message" := Str("Title and description are required"),
                               "errors" := Null])
  {
  }
}
