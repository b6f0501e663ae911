/** The task list screen of the web client: the status filter and counts,
    the next/previous status buttons, the per-task dropdown, the live
    update of the list from `task:event` messages, the history labels, the
    comment count, and the status-change error alert. Tasks are the JSON
    objects the API sends. */
module TaskList {
  import opened Common
  import opened JsValues
  import Http
  import TaskService

  /* ---------------- filter and counts ---------------- */

  /** `tasks.filter(t => t.status === status)`. */
  function WithStatus(tasks: seq<JsObject>, status: string): (r: seq<JsObject>)
    ensures |r| <= |tasks|
    ensures forall t :: t in r <==> t in tasks && Get(t, "status") == Str(status)
  {
    if tasks == [] then []
    else
      var last := tasks[|tasks| - 1];
      WithStatus(tasks[..|tasks| - 1], status) + (if Get(last, "status") == Str(status) then [last] else [])
  }

  /** The filter keeps the order of the list: filtering two lists one after
      the other gives the two filtered lists one after the other. */
  lemma {:induction false} WithStatusAppend(a: seq<JsObject>, b: seq<JsObject>, status: string)
    ensures WithStatus(a + b, status) == WithStatus(a, status) + WithStatus(b, status)
    decreases |b|
  {
    if b == [] {
      assert a + b == a;
    } else {
      var init := b[..|b| - 1];
      var t := b[|b| - 1];
      var x := if Get(t, "status") == Str(status) then [t] else [];
      assert b == init + [t];
      assert a + b == (a + init) + [t];
      calc {
        WithStatus(a + b, status);
        WithStatus((a + init) + [t], status);
        { WithStatusSnoc(a + init, t, status); }
        WithStatus(a + init, status) + x;
        { WithStatusAppend(a, init, status); }
        (WithStatus(a, status) + WithStatus(init, status)) + x;
        WithStatus(a, status) + (WithStatus(init, status) + x);
        { WithStatusSnoc(init, t, status); }
        WithStatus(a, status) + WithStatus(b, status);
      }
    }
  }

  lemma WithStatusSnoc(tasks: seq<JsObject>, t: JsObject, status: string)
    ensures WithStatus(tasks + [t], status)
         == WithStatus(tasks, status) + (if Get(t, "status") == Str(status) then [t] else [])
  {
    assert (tasks + [t])[..|tasks|] == tasks;
  }

  /** filteredTasks: the whole list under 'ALL', otherwise the tasks with
      that status, in list order. */
  function FilteredTasks(tasks: seq<JsObject>, filter: string): (r: seq<JsObject>)
    ensures filter == "ALL" ==> r == tasks
    ensures filter != "ALL" ==> r == WithStatus(tasks, filter)
  {
    if filter == "ALL" then tasks else WithStatus(tasks, filter)
  }

  /** getTaskCountByStatus. */
  function CountByStatus(tasks: seq<JsObject>, status: string): (n: nat)
    ensures n <= |tasks|
    ensures n == 0 <==> forall t :: t in tasks ==> Get(t, "status") != Str(status)
  {
    var r := WithStatus(tasks, status);
    assert r != [] ==> r[0] in r;
    |r|
  }

  /** The count starts at zero and goes up by one exactly for each task
      with the status added to the end of the list. */
  lemma CountByStatusSnoc(tasks: seq<JsObject>, t: JsObject, status: string)
    ensures CountByStatus([], status) == 0
    ensures CountByStatus(tasks + [t], status)
         == CountByStatus(tasks, status) + (if Get(t, "status") == Str(status) then 1 else 0)
  {
    WithStatusSnoc(tasks, t, status);
  }

  /** The count over two lists one after the other is the sum of the counts. */
  lemma CountByStatusAppend(a: seq<JsObject>, b: seq<JsObject>, status: string)
    ensures CountByStatus(a + b, status) == CountByStatus(a, status) + CountByStatus(b, status)
  {
    WithStatusAppend(a, b, status);
  }

  predicate KnownStatus(t: JsObject)
  {
    Get(t, "status") in {Str("OPEN"), Str("IN_PROGRESS"), Str("DONE")}
  }

  /** When every task has one of the three statuses, the three counts add
      up to the length of the list. */
  lemma {:induction false} CountsCoverList(tasks: seq<JsObject>)
    requires forall i :: 0 <= i < |tasks| ==> KnownStatus(tasks[i])
    ensures CountByStatus(tasks, "OPEN") + CountByStatus(tasks, "IN_PROGRESS") + CountByStatus(tasks, "DONE")
            == |tasks|
    decreases |tasks|
  {
    if tasks != [] {
      var init := tasks[..|tasks| - 1];
      assert forall i :: 0 <= i < |init| ==> init[i] == tasks[i];
      CountsCoverList(init);
      assert KnownStatus(tasks[|tasks| - 1]);
    }
  }

  /* ---------------- status buttons ---------------- */

  /** getNextStatus: OPEN, IN_PROGRESS, DONE in that order. */
  function GetNextStatus(status: string): (r: Option<string>)
    ensures r.Some? <==> status == "OPEN" || status == "IN_PROGRESS"
    ensures status == "OPEN" ==> r == Some("IN_PROGRESS")
    ensures status == "IN_PROGRESS" ==> r == Some("DONE")
  {
    match status
    case "OPEN" => Some("IN_PROGRESS")
    case "IN_PROGRESS" => Some("DONE")
    case _ => None
  }

  /** getPrevStatus. */
  function GetPrevStatus(status: string): (r: Option<string>)
    ensures r.Some? <==> status == "IN_PROGRESS" || status == "DONE"
    ensures status == "DONE" ==> r == Some("IN_PROGRESS")
    ensures status == "IN_PROGRESS" ==> r == Some("OPEN")
  {
    match status
    case "IN_PROGRESS" => Some("OPEN")
    case "DONE" => Some("IN_PROGRESS")
    case _ => None
  }

  /** The two buttons undo each other: moving forward then back (or back
      then forward) returns to the starting status. */
  lemma NextPrevInverse(s: string, t: string)
    ensures GetNextStatus(s) == Some(t) <==> GetPrevStatus(t) == Some(s)
    ensures GetNextStatus("DONE").None? && GetPrevStatus("OPEN").None?
  {
  }

  /* ---------------- dropdown ---------------- */

  /** toggleDropdown: the open dropdown closes, any other one opens. */
  function Toggle(open: Option<int>, taskId: int): (r: Option<int>)
    ensures r == Some(taskId) <==> open != Some(taskId)
    ensures r.None? <==> open == Some(taskId)
  {
    if open == Some(taskId) then None else Some(taskId)
  }

  /** Toggling the same dropdown twice leaves it closed, unless it was the
      open one to start with. */
  lemma ToggleTwice(open: Option<int>, taskId: int)
    ensures Toggle(Toggle(open, taskId), taskId) == (if open == Some(taskId) then open else None)
  {
  }

  /* ---------------- live updates ---------------- */

  predicate SameId(t: JsObject, payload: JsObject)
  {
    StrictEquals(Get(t, "id"), Get(payload, "id"))
  }

  /** `list.filter(t => t.id !== payload.id)`. */
  function WithoutId(tasks: seq<JsObject>, payload: JsObject): (r: seq<JsObject>)
    ensures |r| <= |tasks|
    ensures forall t :: t in r <==> t in tasks && !SameId(t, payload)
  {
    if tasks == [] then []
    else (if SameId(tasks[0], payload) then [] else [tasks[0]]) + WithoutId(tasks[1..], payload)
  }

  /** The deletion filter keeps the order and the repeats of the list:
      deleting from two lists one after the other gives the two results one
      after the other. */
  lemma {:induction false} WithoutIdAppend(a: seq<JsObject>, b: seq<JsObject>, payload: JsObject)
    ensures WithoutId(a + b, payload) == WithoutId(a, payload) + WithoutId(b, payload)
    decreases |a|
  {
    if a == [] {
      assert a + b == b;
    } else {
      var x := if SameId(a[0], payload) then [] else [a[0]];
      assert (a + b)[0] == a[0];
      assert (a + b)[1..] == a[1..] + b;
      calc {
        WithoutId(a + b, payload);
        x + WithoutId(a[1..] + b, payload);
        { WithoutIdAppend(a[1..], b, payload); }
        x + (WithoutId(a[1..], payload) + WithoutId(b, payload));
        (x + WithoutId(a[1..], payload)) + WithoutId(b, payload);
        WithoutId(a, payload) + WithoutId(b, payload);
      }
    }
  }

  /** The list after one `task:event`. */
  function ApplyTaskEvent(tasks: seq<JsObject>, kind: string, payload: JsObject): (r: seq<JsObject>)
    ensures kind == "task_created" ==> r == [payload] + tasks
    ensures kind == "task_updated" ==>
      (|r| == |tasks| &&
       forall i :: 0 <= i < |tasks| ==>
         r[i] == (if SameId(tasks[i], payload) then Spread(tasks[i], payload) else tasks[i]))
    ensures kind == "task_deleted" ==> r == WithoutId(tasks, payload)
    ensures kind !in {"task_created", "task_updated", "task_deleted"} ==> r == tasks
  {
    match kind
    case "task_created" => [payload] + tasks
    case "task_updated" =>
      seq(|tasks|, i requires 0 <= i < |tasks| =>
        if SameId(tasks[i], payload) then Spread(tasks[i], payload) else tasks[i])
    case "task_deleted" => WithoutId(tasks, payload)
    case _ => tasks
  }

  /** An update keeps every task's id and takes every property of the
      payload into the task it matches. */
  lemma UpdateKeepsIds(tasks: seq<JsObject>, payload: JsObject)
    ensures var r := ApplyTaskEvent(tasks, "task_updated", payload);
      forall i :: 0 <= i < |tasks| ==>
        (Get(r[i], "id") == Get(tasks[i], "id") &&
         (SameId(tasks[i], payload) ==> forall k :: k in payload ==> r[i][k] == payload[k]))
  {
  }

  /** Deleting a task that was just created, with an id no listed task
      had, gives back the list as it was. */
  lemma {:induction false} DeleteUndoesCreate(tasks: seq<JsObject>, payload: JsObject)
    requires SameId(payload, payload)
    requires forall i :: 0 <= i < |tasks| ==> !SameId(tasks[i], payload)
    ensures ApplyTaskEvent(ApplyTaskEvent(tasks, "task_created", payload), "task_deleted", payload) == tasks
  {
    assert ([payload] + tasks)[1..] == tasks;
    WithoutIdKeepsAll(tasks, payload);
  }

  lemma {:induction false} WithoutIdKeepsAll(tasks: seq<JsObject>, payload: JsObject)
    requires forall i :: 0 <= i < |tasks| ==> !SameId(tasks[i], payload)
    ensures WithoutId(tasks, payload) == tasks
    decreases |tasks|
  {
    if tasks != [] {
      WithoutIdKeepsAll(tasks[1..], payload);
    }
  }

  /* ---------------- history labels ---------------- */

  /** getActionLabel: the three logged actions by name, anything else with
      its first underscore turned into a space. */
  function GetActionLabel(action: string): (r: string)
    ensures action == "STATUS_CHANGE" ==> r == "Status Changed"
    ensures action == "UPDATE_TASK" ==> r == "Task Updated"
    ensures action == "ASSIGN_USER" ==> r == "User Assigned"
    ensures action !in {"STATUS_CHANGE", "UPDATE_TASK", "ASSIGN_USER"} ==>
      |r| == |action| &&
      forall i :: 0 <= i < |action| ==>
        r[i] == (if action[i] == '_' && '_' !in action[..i] then ' ' else action[i])
  {
    match action
    case "STATUS_CHANGE" => "Status Changed"
    case "UPDATE_TASK" => "Task Updated"
    case "ASSIGN_USER" => "User Assigned"
    case _ => ReplaceFirst(action, '_', ' ')
  }

  /** The logged action types map to their labels one to one. */
  lemma ActionLabelsDistinct(a: TaskService.Change, b: TaskService.Change)
    ensures GetActionLabel(TaskService.ActionType(a)) == GetActionLabel(TaskService.ActionType(b))
        <==> TaskService.ActionType(a) == TaskService.ActionType(b)
  {
  }

  /** `parsed.title`, when `parsed` is an object whose title is neither
      undefined nor null. */
  function TitleOf(parsed: Option<JsValue>): (r: Option<JsValue>)
    ensures r.Some? ==> parsed.Some? && parsed.value.Obj? && "title" in parsed.value.fields
                        && r.value == parsed.value.fields["title"] && !Nullish(r.value)
    ensures parsed.Some? && parsed.value.Obj? && !Nullish(Get(parsed.value.fields, "title")) ==> r.Some?
  {
    if parsed.Some? && parsed.value.Obj? && !Nullish(Get(parsed.value.fields, "title"))
    then Some(parsed.value.fields["title"]) else None
  }

  /** getValueLabel: '—' for a null or empty value; for an UPDATE_TASK
      entry the title of the decoded snapshot, falling back to the raw text
      when it does not decode (`parsed` is None when JSON.parse throws) or
      has no title; the raw text otherwise. */
  function GetValueLabel(action: string, value: Option<string>, parsed: Option<JsValue>): (r: JsValue)
    ensures (value.None? || value == Some("")) ==> r == Str("—")
    ensures value.Some? && value.value != "" && action != "UPDATE_TASK" ==> r == Str(value.value)
    ensures value.Some? && value.value != "" && action == "UPDATE_TASK" ==>
      (TitleOf(parsed).Some? ==> r == TitleOf(parsed).value) &&
      (TitleOf(parsed).None? ==> r == Str(value.value))
  {
    if value.None? || value.value == "" then Str("—")
    else if action == "UPDATE_TASK" then
      match TitleOf(parsed)
      case Some(title) => title
      case None => Str(value.value)
    else Str(value.value)
  }

  /** The JSON object the service logs for a details update. */
  function SnapshotJson(title: string, description: string): JsValue
  {
    Obj(map["title" := Str(title), "description" := Str(description)])
  }

  /** A logged details update is labelled with its title, even an empty
      one (`??` only falls back on null or undefined). */
  lemma DetailsUpdateShowsTitle(raw: string, title: string, description: string)
    requires raw != ""
    ensures GetValueLabel("UPDATE_TASK", Some(raw), Some(SnapshotJson(title, description))) == Str(title)
  {
  }

  /* ---------------- comments ---------------- */

  datatype Comment = Comment(message: Option<string>)

  /** `c.message?.trim()` is truthy. */
  predicate HasText(c: Comment)
  {
    c.message.Some? && Trim(c.message.value) != []
  }

  function CountWithText(comments: seq<Comment>): (n: nat)
    ensures n <= |comments|
    ensures n == 0 <==> forall i :: 0 <= i < |comments| ==> !HasText(comments[i])
  {
    if comments == [] then 0
    else (if HasText(comments[0]) then 1 else 0) + CountWithText(comments[1..])
  }

  /** The count starts at zero and goes up by one exactly for each comment
      with text added to the end of the list, as `filter(...).length`
      does. */
  lemma {:induction false} CountWithTextSnoc(comments: seq<Comment>, c: Comment)
    ensures CountWithText([]) == 0
    ensures CountWithText(comments + [c]) == CountWithText(comments) + (if HasText(c) then 1 else 0)
    decreases |comments|
  {
    if comments == [] {
      assert comments + [c] == [c];
      assert [c][1..] == [];
    } else {
      assert (comments + [c])[0] == comments[0];
      assert (comments + [c])[1..] == comments[1..] + [c];
      CountWithTextSnoc(comments[1..], c);
    }
  }

  /** getCommentCount: 0 without comments; otherwise the number of
      comments whose message is not blank. */
  function GetCommentCount(comments: Option<seq<Comment>>): (n: nat)
    ensures comments.None? || comments == Some([]) ==> n == 0
    ensures comments.Some? ==> n <= |comments.value| && n == CountWithText(comments.value)
    ensures comments.Some? ==>
      (n == 0 <==> forall i :: 0 <= i < |comments.value| ==>
                     comments.value[i].message.None? || AllWhitespace(comments.value[i].message.value))
  {
    if comments.None? || |comments.value| == 0 then 0
    else
      BlankIffWhitespace(comments.value);
      CountWithText(comments.value)
  }

  lemma BlankIffWhitespace(comments: seq<Comment>)
    ensures forall i :: 0 <= i < |comments| ==>
      (!HasText(comments[i]) <==> comments[i].message.None? || AllWhitespace(comments[i].message.value))
  {
    forall i | 0 <= i < |comments| && comments[i].message.Some? {
      TrimEmptyIff(comments[i].message.value);
    }
  }

  /* ---------------- status change errors ---------------- */

  /** An error alert: its text and, for the dedicated alert, its title. */
  datatype Alert = Alert(text: string, title: Option<string>)

  const ConcurrentModification :=
    Alert("This task was modified by someone else. Please refresh and try again.",
          Some("Concurrent Modification"))

  /** The catch block of updateTaskStatus as written: the dedicated alert
      is keyed on the words 'optimistic lock'. */
  function StatusErrorAlert(message: string): (a: Alert)
    ensures Contains(message, "optimistic lock") ==> a == ConcurrentModification
    ensures !Contains(message, "optimistic lock") ==>
      a == Alert(if message == "" then "Failed to update status" else message, None)
  {
    if Contains(message, "optimistic lock") then ConcurrentModification
    else Alert(if message == "" then "Failed to update status" else message, None)
  }

  /** A string contains only strings made of its own characters. */
  lemma {:induction false} ContainsUsesOwnChars(s: string, t: string, c: char)
    requires Contains(s, t) && c in t
    ensures c in s
    decreases |s|
  {
    if StartsWith(s, t) {
      var k :| 0 <= k < |t| && t[k] == c;
      assert s[k] == c;
    } else {
      ContainsUsesOwnChars(s[1..], t, c);
    }
  }

  /** A message without the letter 'p' never triggers the dedicated alert. */
  lemma PlainAlertWithoutP(m: string)
    requires 'p' !in m
    ensures !Contains(m, "optimistic lock")
  {
    if Contains(m, "optimistic lock") {
      ContainsUsesOwnChars(m, "optimistic lock", 'p');
    }
  }

  /** The client surfaces the server's message, and a version conflict is
      reported as "Conflict detected", which never contains 'optimistic
      lock': the dedicated alert is unreachable and the conflict shows as
      a plain error. */
  lemma ConflictGetsPlainAlert(m: string)
    requires m == Http.ErrorMessage(Http.ErrorObject(TaskService.Conflict))
    ensures m == "Conflict detected"
    ensures StatusErrorAlert(m) == Alert(m, None)
  {
    assert 'p' !in m;
    PlainAlertWithoutP(m);
  }

  /** The catch block as evidently intended: the dedicated alert for the
      server's conflict message. */
  function StatusErrorAlertIntended(message: string): (a: Alert)
    ensures Contains(message, "Conflict detected") ==> a == ConcurrentModification
    ensures !Contains(message, "Conflict detected") ==>
      a == Alert(if message == "" then "Failed to update status" else message, None)
    ensures a.title.None? ==> a.text != ""
  {
    if Contains(message, "Conflict detected") then ConcurrentModification
    else Alert(if message == "" then "Failed to update status" else message, None)
  }

  /** The correction changes only the conflict branch: a message that
      names neither kind of conflict gets the same alert from both
      versions of the catch block. */
  lemma IntendedAgreesOffConflict(message: string)
    requires !Contains(message, "Conflict detected") && !Contains(message, "optimistic lock")
    ensures StatusErrorAlertIntended(message) == StatusErrorAlert(message)
    ensures StatusErrorAlertIntended("") == StatusErrorAlert("") == Alert("Failed to update status", None)
  {
  }

  /** With the intended check, a version conflict gets the dedicated
      alert. */
  lemma ConflictGetsDedicatedAlert()
    ensures StatusErrorAlertIntended(Http.ErrorMessage(Http.ErrorObject(TaskService.Conflict)))
            == ConcurrentModification
  {
    var m := Http.ErrorMessage(Http.ErrorObject(TaskService.Conflict));
    assert StartsWith(m, "Conflict detected");
  }

  /* ---------------- the component ---------------- */

  /** The create-task form of the screen: whether it is shown, and its fields. */
  datatype CreateForm = CreateForm(shown: bool, title: string, description: string,
                                   assignedTo: Option<int>, deadline: Option<string>, comment: string)

  /** The state of the task list screen. `tasks` is the list shared with
      the task service; the modal fields back the create-task form. */
  class TaskListComponent {
    var tasks: seq<JsObject>
    var openDropdownId: Option<int>
    var filterStatus: string
    var showCreateModal: bool
    var newTaskTitle: string
    var newTaskDescription: string
    var newTaskAssignedTo: Option<int>
    var newTaskDeadline: Option<string>
    var newTaskComment: string

    constructor (tasks: seq<JsObject>)
      ensures this.tasks == tasks && openDropdownId.None? && filterStatus == "ALL"
      ensures !showCreateModal && newTaskTitle == "" && newTaskDescription == ""
      ensures newTaskAssignedTo.None? && newTaskDeadline.None? && newTaskComment == ""
    {
      this.tasks := tasks;
      openDropdownId := None;
      filterStatus := "ALL";
      showCreateModal := false;
      newTaskTitle := "";
      newTaskDescription := "";
      newTaskAssignedTo := None;
      newTaskDeadline := None;
      newTaskComment := "";
    }

    function Form(): CreateForm
      reads this
    {
      CreateForm(showCreateModal, newTaskTitle, newTaskDescription, newTaskAssignedTo, newTaskDeadline, newTaskComment)
    }

    /** The `filteredTasks` computed signal. */
    function Filtered(): (r: seq<JsObject>)
      reads this
      ensures |r| <= |tasks|
    {
      FilteredTasks(tasks, filterStatus)
    }

    function IsDropdownOpen(taskId: int): (b: bool)
      reads this
      ensures b <==> openDropdownId == Some(taskId)
    {
      openDropdownId == Some(taskId)
    }

    method SetFilter(status: string)
      modifies this
      ensures filterStatus == status && Filtered() == FilteredTasks(tasks, status)
      ensures tasks == old(tasks) && openDropdownId == old(openDropdownId) && Form() == old(Form())
    {
      filterStatus := status;
    }

    method ToggleDropdown(taskId: int)
      modifies this
      ensures openDropdownId == Toggle(old(openDropdownId), taskId)
      ensures IsDropdownOpen(taskId) <==> !old(IsDropdownOpen(taskId))
      ensures tasks == old(tasks) && filterStatus == old(filterStatus) && Form() == old(Form())
    {
      openDropdownId := if openDropdownId == Some(taskId) then None else Some(taskId);
    }

    /** closeAllDropdowns, also run on every click on the document. */
    method CloseAllDropdowns()
      modifies this
      ensures openDropdownId.None? && forall id :: !IsDropdownOpen(id)
      ensures tasks == old(tasks) && filterStatus == old(filterStatus) && Form() == old(Form())
    {
      openDropdownId := None;
    }

    /** The subscriber of `task:event` messages. */
    method OnTaskEvent(kind: string, payload: JsObject)
      modifies this
      ensures tasks == ApplyTaskEvent(old(tasks), kind, payload)
      ensures openDropdownId == old(openDropdownId) && filterStatus == old(filterStatus) && Form() == old(Form())
    {
      match kind {
        case "task_created" =>
          tasks := [payload] + tasks;
        case "task_updated" =>
          var list := tasks;
          tasks := seq(|list|, i requires 0 <= i < |list| =>
                     if SameId(list[i], payload) then Spread(list[i], payload) else list[i]);
        case "task_deleted" =>
          tasks := WithoutId(tasks, payload);
        case _ =>
      }
    }

    /** closeCreateModal: hides the form and clears every field of it. */
    method CloseCreateModal()
      modifies this
      ensures Form() == CreateForm(false, "", "", None, None, "")
      ensures tasks == old(tasks) && openDropdownId == old(openDropdownId) && filterStatus == old(filterStatus)
    {
      showCreateModal := false;
      newTaskTitle := "";
      newTaskDescription := "";
      newTaskAssignedTo := None;
      newTaskDeadline := None;
      newTaskComment := "";
    }
  }
}
