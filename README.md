# Task manager core in Dafny

A Dafny model of the task-management application. The server is an Express
API over PostgreSQL and the client is an Angular app. The model covers the
parts of the system that carry its rules:

- **The task mutation core** (`TaskService`). Tasks live in a store: a map
  from task id to a row (title, description, status, assignee, version), an
  append-only activity log and a serial id counter.
  - `TaskStore` is a class whose methods change that store in place, as the
    BEGIN / SELECT / UPDATE / INSERT / COMMIT sequence of the service does.
  - Each method is proved equal to a pure function on the store (`Create`,
    `UpdateDetails`, `ChangeStatus`, `Assign`, `Delete`). That function
    states the error order, the optimistic version check, the version bump
    and the single log entry.
  - The store invariant `Consistent` says every task's version equals its
    initial version plus the number of log entries written for it. Every
    method preserves it.
  - The read side covers the status formatting, the ASSIGN_USER name
    resolution and the newest-first history of `getTaskById`.
- **The request shapers and gates**:
  - `TaskDto`: the four DTO builders.
  - `Validate`: the required-fields middleware, a loop that collects one
    message per missing field.
  - `Authorize`: the role gate.
  - `Http`: the `sendError` / error-handler replies they produce.
- **Live events**:
  - `TaskEmitter` and `SocketsTaskEmitter` each append the emissions of one
    `emitTaskEvent` call to a `SocketHub`. An emission is a (room, event)
    pair. The first goes to the broadcast room, then one goes to each target
    user's room, in list order.
  - Failures are swallowed.
- **Notifications** (`NotificationService`): an in-memory `notifications`
  table with insert, the per-user inbox query (newest first, optionally
  unread only) and mark-read by ids.
- **Client logic**:
  - `TaskList`: the status filter and counts, the next/previous status
    buttons, the dropdown toggle, the live update of the list from
    `task:event`, the history labels, the comment count and the
    status-change error alert.
  - `TaskDetail`: initials, the status and deadline badges, the assignee
    line, page load and the comment guard.

`Common` holds Option/Result, the application error, and the JavaScript
string operations the code uses:
- `split`/`join` on one character, proved to round-trip;
- ASCII `toUpperCase`/`toLowerCase`;
- `trim`, proved blank exactly when the text is all white space;
- `replace` with a one-character pattern;
- `includes`;
- decimal printing, proved injective.

`JsValues` models JSON-like request bodies and client task objects, with
JavaScript truthiness, nullishness, `===` and object spread.

Where the service's behaviour departs from its description, the model
follows the code:
- `createTask` and `deleteTask` write no activity-log entry.
- `deleteTask` performs no version check.
- `updateTaskStatus` returns its errors instead of throwing them. The model
  gives every operation the same `Result`, whichever way the source reports
  the error.

## Model

| member | source | states |
|---|---|---|
| TaskService.Create | api/src/services/taskService.js:7-17 | createTask always succeeds. It inserts the row under the next serial id with the given title, description and assignee and the column defaults for status and version. It leaves the log and every other row alone. |
| TaskService.CreateKeepsConsistency | api/src/services/taskService.js:7-17 | A fresh id has no history, so inserting a task keeps the version/log invariant. |
| TaskService.UpdateDetails | api/src/services/taskService.js:154-196 | The result is 404 when the task is absent. It is 409 when a version is given and differs; with no version the check is skipped. Every error leaves the store as it was. Success sets title and description, bumps the version by exactly 1, keeps the other tasks and the key set, and appends exactly one UPDATE_TASK entry with the old and new {title, description}. |
| TaskService.UpdateDetailsKeepsConsistency | api/src/services/taskService.js:157-191 | Commit or rollback, updateTask keeps the invariant that a version equals the initial version plus the task's log entries. |
| TaskService.ChangeStatus | api/src/services/taskService.js:201-260 | The checks run in order: 404 when absent, 400 when unassigned (null or 0), 400 "Invalid status transition" for OPEN to DONE (ahead of the version check), then 409 on a version mismatch. Success holds exactly when none applies. Errors change nothing. Success sets the status, bumps the version by 1, leaves other tasks unchanged and appends one STATUS_CHANGE entry (old status, new status). |
| TaskService.ChangeStatusKeepsConsistency | api/src/services/taskService.js:204-250 | updateTaskStatus keeps the version/log invariant. |
| TaskService.Assign | api/src/services/taskService.js:265-304 | The result is 404 when absent and 409 on a version mismatch; errors change nothing. Success sets the assignee (null included), bumps the version by 1 and appends one ASSIGN_USER entry (previous assignee, new assignee). |
| TaskService.AssignKeepsConsistency | api/src/services/taskService.js:268-296 | assignTaskToUser keeps the version/log invariant. |
| TaskService.Delete | api/src/services/taskService.js:309-313 | The result is 404 exactly when absent. Otherwise the row is removed, there is no version check, and the log and counter are untouched. |
| TaskService.CommitKeepsConsistency | api/src/services/taskService.js:174-188 | An UPDATE that bumps one task's version by one, together with an INSERT of one log entry for that task, keeps the invariant. |
| TaskService.EntriesForNone | api/src/services/taskService.js:82-88 | A log with no entry for a task yields an empty history for it. |
| TaskService.SecondStatusChangeLoses | api/src/services/taskService.js:231-242 | Two status changes made from the same read version: after the first commits, the second is rejected (409, or 400 when it is the OPEN to DONE case) and writes nothing. |
| TaskService.SecondWriterLoses | api/src/services/taskService.js:169-171 | The same holds for two versioned detail edits (169-171) and two assignments (280) made from one read version. |
| TaskService.UnversionedEditNeverConflicts | api/src/services/taskService.js:169 | An updateTask without a version succeeds exactly when the task exists. |
| TaskService.Lifecycle | api/src/services/taskService.js:201-294 | A concrete run: create (version 1), assign (version 2, one log entry), OPEN to DONE refused, move to IN_PROGRESS (version 3), and the stale retry refused with 409. |
| TaskService.CreateAsCalled | api/src/controllers/taskController.js:26-34 | The controller's 7-argument call stores the creator's id as assignee. |
| TaskService.CreateAsCalledAssignsCreator | api/src/controllers/taskController.js:26-34 | Creator 7 asking for assignee 3 does not get assignee 3. |
| TaskService.CreateAsIntended | api/src/services/taskService.js:7 | The intended call stores the requested assignee, with the default version and no log entry. |
| TaskService.FormatStatus | api/src/services/taskService.js:143-149 | An empty status gives "N/A". Otherwise the result equals the letter-wise reference TitleCase: each `_` becomes a space and each word is capitalised. |
| TaskService.TitleCase | api/src/services/taskService.js:145-148 | The reference has the same length as the status. Each `_` becomes a space. A letter that starts a word (the first letter, or one after `_`) is upper-cased, and every other letter is lower-cased. |
| TaskService.TitleCaseOfWords | api/src/services/taskService.js:145-148 | split on `_`, capitalise each word and join with a space equals the letter-wise TitleCase. |
| TaskService.FormatStatusInProgress | api/src/services/taskService.js:143-149 | "IN_PROGRESS" formats as "In Progress". |
| TaskService.MapCapitalize | api/src/services/taskService.js:147 | Each word is capitalised in place; the number of words is unchanged. |
| TaskService.UserLabel | api/src/services/taskService.js:113-116 | An absent assignee reads "Unassigned", a known user with a name reads as that name, and anything else reads "User #<id>". |
| TaskService.Display | api/src/services/taskService.js:110-138 | A displayed entry keeps its action type. UPDATE_TASK shows its old and new snapshots. STATUS_CHANGE shows FormatStatus of the old and new status. ASSIGN_USER shows UserLabel of each id when user ids were collected, and the stored id otherwise. |
| TaskService.UserIdsInEmpty | api/src/services/taskService.js:93-101 | No user id is collected exactly when no ASSIGN_USER entry carries an old or new assignee. |
| TaskService.History | api/src/services/taskService.js:82-138 | The history has one displayed entry per log entry of the task, newest first. |
| TaskService.TaskById | api/src/services/taskService.js:69-141 | 404 exactly when the task is absent. Otherwise the result holds the row and its displayed history. The assignee name is present exactly when the task is assigned to a known user, and it is that user's name. |
| TaskService.AssignmentsShownByName | api/src/services/taskService.js:110-117 | An ASSIGN_USER entry with an assignee shows both sides through UserLabel. |
| TaskService.UnresolvedAssignmentsStayNull | api/src/services/taskService.js:121-126 | When no ASSIGN_USER entry carries a user id, those entries keep their null values. |
| TaskService.Reverse | api/src/services/taskService.js:86 | Element i of the reversal is element n-1-i of the input (newest first). |
| TaskService.TaskStore.CreateTask | api/src/services/taskService.js:7-17 | The method's result and new store are those of Create, and the invariant is kept. |
| TaskService.TaskStore.UpdateTask | api/src/services/taskService.js:154-196 | The method's result and new store are those of UpdateDetails; the invariant is kept. |
| TaskService.TaskStore.UpdateTaskStatus | api/src/services/taskService.js:201-260 | The method's result and new store are those of ChangeStatus; the invariant is kept. |
| TaskService.TaskStore.AssignTaskToUser | api/src/services/taskService.js:265-304 | The method's result and new store are those of Assign; the invariant is kept. |
| TaskService.TaskStore.DeleteTask | api/src/services/taskService.js:309-313 | The method's result and new store are those of Delete; the invariant is kept. |
| TaskService.TaskStore.GetTaskById | api/src/services/taskService.js:69-141 | The loop collects exactly the user ids of the ASSIGN_USER entries, and the method returns TaskById. |
| Http.ErrorMessage | api/src/utils/response.js:12 | A bare string has no message, so the reply reads "Internal Server Error". An error object's non-empty message is used. The result is never empty. |
| Http.SendError | api/src/utils/response.js:9-15 | The reply has the given status and the body {success: false, message: ErrorMessage of the argument, errors: null}. |
| Http.ErrorHandler | api/src/middleware/errorHandler.js:1-15 | A plain Error answers 500. An AppError answers with its status, or 500 when the status is falsy. The body is {success:false, message or "Internal Server Error", errors:null}. |
| TaskDto.ToCreateTaskDto | api/src/dtos/task.dto.js:1-13 | Accepted exactly when title and description are truthy. The output holds exactly title, description and assigned_user_id, with values from the body. assigned_user_id is null exactly when it was falsy. |
| TaskDto.ToUpdateTaskDto | api/src/dtos/task.dto.js:15-23 | Accepted exactly when status is truthy and version is neither undefined nor null (so version 0 is accepted). The output is exactly {status, version}. |
| TaskDto.ToUpdateTaskByIdDto | api/src/dtos/task.dto.js:26-34 | Accepted exactly when title and description are truthy. The output has exactly the keys title, description and newComment (deadline is dropped), with the body's values. |
| TaskDto.ToAssignTaskDto | api/src/dtos/task.dto.js:36-44 | Accepted exactly when user_id is truthy (so null and 0 are refused) and version is present. The output is exactly {user_id, version}. |
| TaskDto.ZeroVersionAcceptedZeroUserRefused | api/src/dtos/task.dto.js:18-41 | Version 0 passes both shapers, while user id 0 is refused. |
| TaskDto.RefusedBodyIs500 | api/src/dtos/task.dto.js:4-6 | A refused create body is answered 500 with the shaper's message, since a plain Error has no status. |
| Validate.MissingFields | api/src/middleware/validate.js:6-10 | Every reported field is listed and missing; there are no more reports than fields. |
| Validate.MissingFieldsComplete | api/src/middleware/validate.js:7-8 | Every listed field whose value is undefined, null or "" is reported. |
| Validate.MissingFieldsEmptyIff | api/src/middleware/validate.js:6-12 | Nothing is reported exactly when every listed field is present (0 and false count as present). |
| Validate.MissingFieldsAppend | api/src/middleware/validate.js:6-10 | Reports follow the order of `fields`: checking a + b reports a's missing fields, then b's. |
| Validate.Messages | api/src/middleware/validate.js:8 | One "`<f>` is required" per missing field, in order. |
| Validate.CollectErrors | api/src/middleware/validate.js:4-10 | The loop's error list is the messages for the missing fields, in order. |
| Validate.Validate | api/src/middleware/validate.js:2-21 | next() happens exactly when no field is missing (so always for an empty list). Otherwise the reply is 400 {message: "Please fill all the required fields", errors}. |
| Authorize.Authorize | api/src/middleware/authorize.js:3-10 | next() happens exactly when the role is listed. Otherwise the reply is sendError("Forbidden", 403), without next(). |
| Authorize.ForbiddenReadsAsInternalError | api/src/middleware/authorize.js:6 | The 403 body's message reads "Internal Server Error". |
| Authorize.AuthorizeIntended | api/src/middleware/authorize.js:3-10 | The same gate with a 403 body whose message is "Forbidden". |
| Authorize.AuthorizeMonotone | api/src/middleware/authorize.js:3-5 | With no roles every user is refused, and adding roles never refuses a user that was let through. This holds for the gate as written and as intended, which let through the same users. |
| Sockets.UserRoom | api/src/sockets/taskEmitter.js:28 | A user room name starts with "user_". |
| Sockets.UserRoomInjective | api/src/sockets/taskEmitter.js:28 | Two users share a room name exactly when they are the same user. |
| Sockets.ToUsers | api/src/sockets/taskEmitter.js:27-34 | There is one emission per target, in list order, each to that user's room and each with the same event. |
| Sockets.Fanout | api/src/sockets/taskEmitter.js:19-34 | There are 1 + \|targets\| emissions, the broadcast first, then the users' emissions. |
| Sockets.Emitted | api/src/sockets/taskEmitter.js:15-38 | An uninitialised server emits nothing. Omitted or null targets give the broadcast alone. Otherwise the broadcast is followed by one emission per listed user, in list order. |
| Sockets.EmitToUsers | api/src/utils/socketsTaskEmitter.js:25-27 | The forEach loop appends exactly ToUsers to the hub. |
| Sockets.ToUsersCount | api/src/sockets/taskEmitter.js:27-34 | Each user receives as many emissions as its id is listed. |
| Sockets.FanoutCounts | api/src/sockets/taskEmitter.js:19-34 | The broadcast room receives exactly one emission, and each user as many as it is listed. |
| Sockets.CountToAppend | api/src/sockets/taskEmitter.js:19-34 | Emissions counted per room add up over consecutive batches. |
| Sockets.NoUserEmissionTo | api/src/sockets/taskEmitter.js:27-34 | User emissions never reach a room that is not a user room. |
| Sockets.BroadcastRoomsAreNotUserRooms | api/src/utils/socketsTaskEmitter.js:22 | Neither "admins" nor "tasks" is a user room. |
| TaskEmitter.EmitTaskEvent | api/src/sockets/taskEmitter.js:8-39 | The hub's emissions grow by exactly Emitted("admins", {type, taskId, actor, payload}, targets), and the call never fails. |
| TaskEmitter.TaskEvent | api/src/sockets/taskEmitter.js:19-33 | The event has exactly type, taskId, actor and payload, each holding the caller's value. |
| TaskEmitter.AdminsOnceEachUserPerListing | api/src/sockets/taskEmitter.js:19-33 | One call reaches "admins" once and each user as often as listed. |
| SocketsTaskEmitter.TimedEvent | api/src/utils/socketsTaskEmitter.js:13-19 | The event has exactly type, taskId, actor, payload and timestamp. Type, taskId and actor are the caller's values, a missing payload becomes {}, and the timestamp is the clock reading. |
| SocketsTaskEmitter.EmitTaskEvent | api/src/utils/socketsTaskEmitter.js:3-32 | The hub's emissions grow by exactly Emitted("tasks", event, targets) for the one event built. |
| SocketsTaskEmitter.OneEventEverywhere | api/src/utils/socketsTaskEmitter.js:13-27 | Every emission of a call carries the same event, whose default payload is {}. |
| SocketsTaskEmitter.TasksOnceEachUserPerListing | api/src/utils/socketsTaskEmitter.js:22-27 | One call reaches "tasks" once and each user as often as listed. |
| NotificationService.Inbox | api/src/services/notificationService.js:26-36 | A row is listed exactly when it is in the table, belongs to the user and, if only unread rows are asked for, is unread. |
| NotificationService.InboxNewestFirst | api/src/services/notificationService.js:32 | Over a table in insertion order, the inbox lists rows newest first. |
| NotificationService.MarkRead | api/src/services/notificationService.js:44-50 | Exactly the rows with a listed id become read, whoever owns them; all other rows are unchanged. |
| NotificationService.MarkReadIdempotent | api/src/services/notificationService.js:46-47 | Marking twice equals marking once, and the ids are unchanged. |
| NotificationService.Returned | api/src/services/notificationService.js:48-51 | The returned rows are exactly those whose id was listed. |
| NotificationService.MarkedRowsAreRead | api/src/services/notificationService.js:44-50 | Every returned row is read, and unlisted rows are untouched. |
| NotificationService.NotificationTable.CreateNotification | api/src/services/notificationService.js:11-19 | Exactly one unread row is appended with the given user, type, message and task id (null unless given), under the next id. |
| NotificationService.NotificationTable.GetNotificationsByUser | api/src/services/notificationService.js:26-36 | The result is Inbox of the table, ids descending. |
| NotificationService.NotificationTable.MarkNotificationsRead | api/src/services/notificationService.js:42-52 | An empty list returns [] and changes nothing. Otherwise the table becomes MarkRead and the marked rows are returned. |
| TaskList.WithStatus | app/src/app/features/tasks/components/task-list/task-list.ts:56 | A task is kept exactly when it is in the list and has that status. |
| TaskList.WithStatusAppend | app/src/app/features/tasks/components/task-list/task-list.ts:56 | The filter preserves list order. |
| TaskList.FilteredTasks | app/src/app/features/tasks/components/task-list/task-list.ts:54-57 | 'ALL' gives the whole list; any other filter gives the tasks with that status. |
| TaskList.CountByStatus | app/src/app/features/tasks/components/task-list/task-list.ts:128-130 | The count is at most the length, and 0 exactly when no task has the status. |
| TaskList.CountByStatusSnoc | app/src/app/features/tasks/components/task-list/task-list.ts:128-130 | The count of the empty list is 0, and appending a task adds one exactly when it has the status. |
| TaskList.CountByStatusAppend | app/src/app/features/tasks/components/task-list/task-list.ts:128-130 | The count over two lists joined is the sum of their counts. |
| TaskList.CountsCoverList | app/src/app/features/tasks/components/task-list/task-list.ts:128-130 | When every task is OPEN, IN_PROGRESS or DONE, the three counts sum to the list length. |
| TaskList.GetNextStatus | app/src/app/features/tasks/components/task-list/task-list.ts:296-305 | There is a next status exactly for OPEN and IN_PROGRESS: OPEN goes to IN_PROGRESS and IN_PROGRESS goes to DONE. |
| TaskList.GetPrevStatus | app/src/app/features/tasks/components/task-list/task-list.ts:285-294 | There is a previous status exactly for IN_PROGRESS and DONE: DONE goes back to IN_PROGRESS and IN_PROGRESS goes back to OPEN. |
| TaskList.NextPrevInverse | app/src/app/features/tasks/components/task-list/task-list.ts:285-305 | next(s) = t exactly when prev(t) = s. DONE has no next and OPEN has no previous. |
| TaskList.Toggle | app/src/app/features/tasks/components/task-list/task-list.ts:64-67 | Toggling the open dropdown closes it; toggling any other opens it. |
| TaskList.ToggleTwice | app/src/app/features/tasks/components/task-list/task-list.ts:64-67 | Toggling one id twice ends closed, unless that id was open to begin with. |
| TaskList.WithoutId | app/src/app/features/tasks/components/task-list/task-list.ts:117-119 | Exactly the tasks whose id is not `===` the payload id are kept. |
| TaskList.WithoutIdAppend | app/src/app/features/tasks/components/task-list/task-list.ts:117-119 | Deleting from two joined lists gives the two results joined, so order and repeats are kept. |
| TaskList.ApplyTaskEvent | app/src/app/features/tasks/components/task-list/task-list.ts:99-122 | task_created prepends the payload. task_updated merges the payload into exactly the tasks with the same id and keeps the length. task_deleted removes them. Any other type leaves the list unchanged. |
| TaskList.UpdateKeepsIds | app/src/app/features/tasks/components/task-list/task-list.ts:107-112 | An update keeps every id, and a matched task takes every payload property. |
| TaskList.DeleteUndoesCreate | app/src/app/features/tasks/components/task-list/task-list.ts:102-119 | Deleting a just-created task whose id is new restores the list. |
| TaskList.WithoutIdKeepsAll | app/src/app/features/tasks/components/task-list/task-list.ts:117-119 | Deleting an id no task has leaves the list as it was. |
| TaskList.GetActionLabel | app/src/app/features/tasks/components/task-list/task-list.ts:388-399 | The three logged actions get fixed labels. Any other action keeps its length and has only its first `_` turned into a space. |
| TaskList.ActionLabelsDistinct | app/src/app/features/tasks/components/task-list/task-list.ts:388-399 | Logged action types have equal labels exactly when they are the same type. |
| TaskList.TitleOf | app/src/app/features/tasks/components/task-list/task-list.ts:405-406 | A title is found exactly when the decoded value is an object whose title is neither undefined nor null. |
| TaskList.GetValueLabel | app/src/app/features/tasks/components/task-list/task-list.ts:401-412 | A null or empty value gives '—'. An UPDATE_TASK value gives its snapshot's title when there is one, else the raw text. Any other action gives the raw text. |
| TaskList.DetailsUpdateShowsTitle | app/src/app/features/tasks/components/task-list/task-list.ts:403-406 | A logged {title, description} snapshot is labelled by its title, even an empty one. |
| TaskList.CountWithText | app/src/app/features/tasks/components/task-list/task-list.ts:461 | The count is at most the number of comments, and 0 exactly when none has text. |
| TaskList.CountWithTextSnoc | app/src/app/features/tasks/components/task-list/task-list.ts:461 | The count of no comments is 0, and appending a comment adds one exactly when its message is not blank after trim. |
| TaskList.GetCommentCount | app/src/app/features/tasks/components/task-list/task-list.ts:458-462 | Missing or empty comments give 0. Otherwise the result is CountWithText of the comments: it never exceeds their number, and is 0 exactly when every message is missing or all white space. |
| TaskList.BlankIffWhitespace | app/src/app/features/tasks/components/task-list/task-list.ts:461 | A message is blank after trim exactly when it is all white space. |
| TaskList.StatusErrorAlert | app/src/app/features/tasks/components/task-list/task-list.ts:319-328 | Messages containing 'optimistic lock' get the Concurrent Modification alert; others get their own text or "Failed to update status". |
| TaskList.ContainsUsesOwnChars | app/src/app/features/tasks/components/task-list/task-list.ts:320 | A text contains only strings made of its own characters. |
| TaskList.ConflictGetsPlainAlert | app/src/app/features/tasks/components/task-list/task-list.ts:320-327 | The server's conflict message is "Conflict detected", and it gets the plain alert. |
| TaskList.StatusErrorAlertIntended | app/src/app/features/tasks/components/task-list/task-list.ts:319-328 | A message containing "Conflict detected" gets the Concurrent Modification alert. Any other message gets its own text, or "Failed to update status" when empty, so a plain alert never has empty text. |
| TaskList.IntendedAgreesOffConflict | app/src/app/features/tasks/components/task-list/task-list.ts:319-328 | A message naming neither "Conflict detected" nor 'optimistic lock' gets the same alert from the written and the intended catch block, so the correction changes only the conflict branch. |
| TaskList.ConflictGetsDedicatedAlert | app/src/app/features/tasks/components/task-list/task-list.ts:320-324 | Under the intended check, a version conflict gets the dedicated alert. |
| TaskList.TaskListComponent.Filtered | app/src/app/features/tasks/components/task-list/task-list.ts:54-57 | The filtered list is never longer than the list. |
| TaskList.TaskListComponent.IsDropdownOpen | app/src/app/features/tasks/components/task-list/task-list.ts:73-75 | Open exactly when the open id is this id. |
| TaskList.TaskListComponent.SetFilter | app/src/app/features/tasks/components/task-list/task-list.ts:59-61 | The filter becomes the status, and the filtered view is FilteredTasks of the list. The list, the open dropdown and the create form are unchanged. |
| TaskList.TaskListComponent.ToggleDropdown | app/src/app/features/tasks/components/task-list/task-list.ts:64-67 | The open id becomes Toggle of the old one, so this dropdown's open state flips. The list, the filter and the create form are unchanged. |
| TaskList.TaskListComponent.CloseAllDropdowns | app/src/app/features/tasks/components/task-list/task-list.ts:69-80 | Afterwards no dropdown is open. The list, the filter and the create form are unchanged. |
| TaskList.TaskListComponent.OnTaskEvent | app/src/app/features/tasks/components/task-list/task-list.ts:98-122 | The list becomes ApplyTaskEvent of the old list. The filter, the dropdown and the create form are unchanged. |
| TaskList.TaskListComponent.CloseCreateModal | app/src/app/features/tasks/components/task-list/task-list.ts:146-153 | The modal is hidden and all five form fields are cleared. |
| TaskDetail.FirstChars | app/src/app/features/tasks/components/task-detail/task-detail.ts:132-133 | The result has at most one character per word. |
| TaskDetail.FirstCharsOfSplit | app/src/app/features/tasks/components/task-detail/task-detail.ts:130-133 | The first characters of the space-separated pieces are exactly the letter-wise word starts. |
| TaskDetail.Initials | app/src/app/features/tasks/components/task-detail/task-detail.ts:129-135 | The initials number at most the words. They equal the upper-cased word starts, in order. |
| TaskDetail.InitialsComeFromName | app/src/app/features/tasks/components/task-detail/task-detail.ts:129-135 | Every initial is an upper-cased non-space character of the name. |
| TaskDetail.WordStartsFromText | app/src/app/features/tasks/components/task-detail/task-detail.ts:130-132 | Every word start is a non-space character of the text. |
| TaskDetail.GetStatusClass | app/src/app/features/tasks/components/task-detail/task-detail.ts:69-80 | The three statuses get their fixed classes. The class is non-empty exactly for them. |
| TaskDetail.StatusClassesDistinct | app/src/app/features/tasks/components/task-detail/task-detail.ts:69-80 | Distinct known statuses get distinct classes. |
| TaskDetail.GetAssignedUser | app/src/app/features/tasks/components/task-detail/task-detail.ts:82-84 | The result is the assignee's name, or "Unassigned" when there is no task, no assignee or an empty name. It is never empty. |
| TaskDetail.GetRemainingInfo | app/src/app/features/tasks/components/task-detail/task-detail.ts:86-127 | No deadline gives ' ' with text-gray-400. d < 0 gives "Overdue by \|d\| day(s)" in red. d = 0 gives "Due Today". d = 1 gives "Due Tomorrow". d > 1 gives "d days left" in green. |
| TaskDetail.RemainingInfoDetermines | app/src/app/features/tasks/components/task-detail/task-detail.ts:99-126 | The badge determines the day difference, and a deadline badge always differs from the no-deadline one. |
| TaskDetail.OverdueLabelGivesDays | app/src/app/features/tasks/components/task-detail/task-detail.ts:102 | The overdue label determines the number of days. |
| TaskDetail.LaterLabelGivesDays | app/src/app/features/tasks/components/task-detail/task-detail.ts:124 | The "days left" label determines the number of days. |
| TaskDetail.CanComment | app/src/app/features/tasks/components/task-detail/task-detail.ts:47-49 | A comment may be sent exactly when a task is loaded and the message is not all white space. |
| TaskDetail.TaskDetailComponent.NgOnInit | app/src/app/features/tasks/components/task-detail/task-detail.ts:25-44 | A falsy id changes nothing and loading stays on. Otherwise loading ends and one of three things happens. A loaded task is shown, with the error and redirect flag as they were. A missing task is cleared and the redirect scheduled. Any other failure's message (or "Failed to load task") is shown, with the task and redirect flag as they were. |
| TaskDetail.TaskDetailComponent.AddComment | app/src/app/features/tasks/components/task-detail/task-detail.ts:46-59 | With no task or a blank message nothing changes. A successful post and reload shows the reloaded task and clears the box. A failure changes nothing. Loading, error and redirect flag never change. |

## Left out

- The database is not modelled: PostgreSQL, SQL text, connection release, the `RETURNING *` row shapes and `created_at`/`updated_at` timestamps. The store is an in-memory map, a log and a serial counter. BEGIN/ROLLBACK is "the store is left as it was" and COMMIT is "all writes happen".
- Concurrent transactions are not modelled; only sequential interleavings are, through the version check.
- The column defaults for status and version are not part of this model. They are a parameter (`Defaults`).
- TaskService.Create: `created_by`, `deadline` and comments are not columns the service writes. The request-scoped `user` arguments of the controllers are left out.
- `getAllTasks` metrics and the user service are left out: they are SQL aggregation.
- HTTP transport is left out: Express routing, `sendSuccess` bodies, JWT/AES token handling and `verifyUserToken`. Only the reply values the gates and shapers produce are modelled.
- TaskDto.ToUpdateTaskDto: a JSON version sent as a string ("3") passes the shaper but never equals the stored number in the service. The model keeps versions as integers and does not capture that mismatch.
- NotificationService.GetNotificationsByUser: `ORDER BY created_at DESC` is modelled as reverse insertion order. Rows created in the same instant may come back in any order in the database.
- NotificationService.NotificationTable.MarkNotificationsRead: the order of the `RETURNING *` rows is unspecified in SQL; the model returns them in table order. A non-array argument (which would throw) is not modelled.
- The `is_read` default of the notifications table is not part of this model. New rows are taken as unread, as the unread filter assumes.
- Socket.io transport, connection, rooms joining and the `notificationEmitter` are left out. Only the list of (room, event) emissions is modelled, and console logging of caught errors is dropped.
- Target ids are integers. Other JavaScript values in `targetUsers` (strings, objects) are not modelled.
- The client's HTTP services, SweetAlert/toast calls, routing and the redirect timer are modelled only as parameters or a flag (`redirectScheduled`).
- Date arithmetic in `getRemainingInfo` is not modelled. The model takes the whole-day difference `Math.ceil` produces as an integer. `formatDeadline`, `openEditModal` and the `today` string are not modelled.
- The task-list copy of `getRemainingInfo` (task-list.ts:414-456) is not modelled. It differs from the detail one only in writing "Due today"/"Due tomorrow" in lower case.
- The task-list `getStatusClass`/`getStatusDotClass` (task-list.ts:331-341) are not modelled; they are fixed lookups like the detail one.
- TaskList.GetValueLabel: `JSON.parse` is not a codec here. The caller passes the decoded value, or None when parsing throws.
- TaskService.History: the `JSON.stringify` of the UPDATE_TASK snapshot is kept as its two fields, so the history shows the snapshot as a value, not as text.
- TaskService.History: `ORDER BY created_at DESC` (taskService.js:86) is modelled as reverse log order. Entries logged in the same instant may come back in any order in the database.
- TaskService.Delete: the model assumes the task's log entries stay, as the DELETE on `tasks` alone (taskService.js:309-313) reads. The referential action of `activity_logs.task_id` is not modelled: the database may cascade the delete to the log rows or refuse it with an error (a 500) for a task that has history.
- TaskService.TaskById: the joined `assigned_user_email` column (taskService.js:71) is not modelled. Only the assignee's name is kept.
- TaskDetail.GetAssignedUser: models `task?.assignedUser?.name || 'Unassigned'` (task-detail.ts:83) over a task that may carry an `assignedUser` object. The API row names the assignee only as `assigned_user_name` (taskService.js:71, task.model.ts:10), so a real task never has that object and the screen shows "Unassigned" for every task. The model takes its input type from the screen and does not capture this mismatch.
- Upper and lower case are ASCII only, and `trim` uses the ECMAScript white-space set. Unicode case mapping is not modelled.
- Numbers are integers. NaN, fractions and floating point are not modelled (a NaN route id is the `None` of `NgOnInit`).

## Findings

| source | as written | input that shows it | evidently intended | confidence | as-written member | corrected member |
|---|---|---|---|---|---|---|
| api/src/controllers/taskController.js:26-34 | The controller passes `created_by` as the third argument of `createTask(title, description, assigned_user_id)` | user 7 creates a task with `assigned_user_id: 3` | the requested assignee (or none) is stored | high, not executed | TaskService.CreateAsCalledAssignsCreator | TaskService.CreateAsIntended |
| api/src/middleware/authorize.js:6 | `sendError(res, "Forbidden", 403)` passes a string, whose `.message` is undefined | any user whose role is not listed | the 403 body says "Forbidden" | high, not executed | Authorize.ForbiddenReadsAsInternalError | Authorize.AuthorizeIntended |
| app/src/app/features/tasks/components/task-list/task-list.ts:320 | The concurrent-modification alert is keyed on 'optimistic lock', which no server message contains | a status change from a stale version (server answers "Conflict detected") | a version conflict shows the Concurrent Modification alert | medium, not executed | TaskList.ConflictGetsPlainAlert | TaskList.StatusErrorAlertIntended |
