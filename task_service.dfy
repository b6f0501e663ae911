/** The task mutation core of the API: a table of tasks, each with a version
    counter for optimistic concurrency, and an append-only activity log.

    Every mutation is specified twice over: a function on the whole `Store`
    value states what the transaction commits (or that it leaves the store
    untouched), and a method of `TaskStore` performs it step by step, the
    way the service does between BEGIN and COMMIT, and is proved to commit
    exactly what the function says. */
module TaskService {
  import opened Common

  /* ================= data ================= */

  /** One row of the tasks table (the columns the service reads or writes). */
  datatype TaskRow = TaskRow(
    title: string,
    description: string,
    status: string,
    assignedUserId: Option<int>,
    version: int)

  /** A row together with its id, as `RETURNING *` hands it back. */
  datatype TaskRecord = TaskRecord(id: int, row: TaskRow)

  /** What one activity-log entry records, keyed by its action type. The
      service stores old and new value as text; an UPDATE_TASK value is the
      JSON text of `{title, description}`, kept here as its two fields. */
  datatype Change =
    | DetailsUpdate(oldTitle: string, oldDescription: string, newTitle: string, newDescription: string)
    | StatusChange(oldStatus: string, newStatus: string)
    | AssignUser(oldUser: Option<int>, newUser: Option<int>)

  datatype LogEntry = LogEntry(taskId: int, change: Change)

  function ActionType(c: Change): string
  {
    match c
    case DetailsUpdate(_, _, _, _) => "UPDATE_TASK"
    case StatusChange(_, _) => "STATUS_CHANGE"
    case AssignUser(_, _) => "ASSIGN_USER"
  }

  /** The whole persistent state: the tasks table by id, the activity log
      in insertion (= created_at) order, and the next serial id. */
  datatype Store = Store(tasks: map<int, TaskRow>, log: seq<LogEntry>, nextId: int)

  /** Column defaults of the tasks table, which the database supplies on
      insert: the initial version and the initial status. */
  datatype Defaults = Defaults(version: int, status: string)

  /** The result a mutation reports together with the store it leaves. */
  datatype Outcome<+T> = Outcome(result: Result<T, AppError>, after: Store)

  const NotFound := AppError("Task not found", 404)
  const MustBeAssigned := AppError("Task must be assigned to someone before changing status", 400)
  const InvalidTransition := AppError("Invalid status transition", 400)
  const Conflict := AppError("Conflict detected", 409)

  /** `current.assigned_user_id` is truthy: present and not 0. */
  predicate IsAssigned(a: Option<int>)
  {
    a.Some? && a.value != 0
  }

  /* ================= the activity log of one task ================= */

  function EntriesFor(log: seq<LogEntry>, id: int): (r: seq<LogEntry>)
    ensures |r| <= |log|
    ensures forall i :: 0 <= i < |r| ==> r[i].taskId == id
  {
    if log == [] then []
    else EntriesFor(log[..|log| - 1], id) + (if log[|log| - 1].taskId == id then [log[|log| - 1]] else [])
  }

  lemma EntriesForAppend(log: seq<LogEntry>, e: LogEntry, id: int)
    ensures EntriesFor(log + [e], id) == EntriesFor(log, id) + (if e.taskId == id then [e] else [])
  {
    assert (log + [e])[..|log + [e]| - 1] == log;
  }

  /** A log none of whose entries belongs to `id` has no entries for it. */
  lemma {:induction false} EntriesForNone(log: seq<LogEntry>, id: int)
    requires forall i :: 0 <= i < |log| ==> log[i].taskId != id
    ensures EntriesFor(log, id) == []
  {
    if log != [] {
      EntriesForNone(log[..|log| - 1], id);
    }
  }

  /** The store invariant: ids are below the serial counter, so a new id
      has no history, and every live task's version is its initial version
      plus the number of log entries written for it; that is, each
      committed mutation bumped the version once and logged once. */
  ghost predicate Consistent(s: Store, d: Defaults)
  {
    && (forall id :: id in s.tasks ==> id < s.nextId)
    && (forall i :: 0 <= i < |s.log| ==> s.log[i].taskId < s.nextId)
    && (forall id :: id in s.tasks ==> s.tasks[id].version == d.version + |EntriesFor(s.log, id)|)
  }

  /* ================= mutations, as functions on the store ================= */

  /** createTask: inserts a row with the column defaults for status and
      version under the next serial id. It writes no log entry. */
  function Create(s: Store, d: Defaults, title: string, description: string, assignee: Option<int>)
    : (o: Outcome<TaskRecord>)
    ensures o.result.Ok? && o.result.value.id == s.nextId
    ensures o.result.value.row == TaskRow(title, description, d.status, assignee, d.version)
    ensures o.after.tasks == s.tasks[s.nextId := o.result.value.row]
    ensures o.after.log == s.log && o.after.nextId == s.nextId + 1
  {
    var row := TaskRow(title, description, d.status, assignee, d.version);
    Outcome(Ok(TaskRecord(s.nextId, row)), Store(s.tasks[s.nextId := row], s.log, s.nextId + 1))
  }

  /** updateTask: an optional version check (skipped when no version is
      given), then title and description are overwritten, the version is
      bumped and an UPDATE_TASK entry records the old and new pair. */
  function UpdateDetails(s: Store, id: int, title: string, description: string, version: Option<int>)
    : (o: Outcome<TaskRecord>)
    ensures o.result.Err? ==> o.after == s
    ensures id !in s.tasks ==> o.result == Err(NotFound)
    ensures id in s.tasks && version.Some? && version.value != s.tasks[id].version ==> o.result == Err(Conflict)
    ensures o.result.Ok? <==> id in s.tasks && (version.None? || version.value == s.tasks[id].version)
    ensures o.result.Ok? ==>
      var was := s.tasks[id];
      && id in o.after.tasks
      && o.result.value == TaskRecord(id, o.after.tasks[id])
      && o.after.tasks[id] == was.(title := title, description := description, version := was.version + 1)
      && o.after.tasks.Keys == s.tasks.Keys
      && (forall j :: j in s.tasks && j != id ==> o.after.tasks[j] == s.tasks[j])
      && o.after.log == s.log + [LogEntry(id, DetailsUpdate(was.title, was.description, title, description))]
      && o.after.nextId == s.nextId
  {
    if id !in s.tasks then Outcome(Err(NotFound), s)
    else
      var current := s.tasks[id];
      if version.Some? && version.value != current.version then Outcome(Err(Conflict), s)
      else
        var row := current.(title := title, description := description, version := current.version + 1);
        var entry := LogEntry(id, DetailsUpdate(current.title, current.description, title, description));
        Outcome(Ok(TaskRecord(id, row)), Store(s.tasks[id := row], s.log + [entry], s.nextId))
  }

  /** updateTaskStatus: the checks run in the order not found, unassigned,
      OPEN to DONE, stale version; the first that applies decides the error
      and nothing is written. Otherwise the status is set, the version
      bumped and a STATUS_CHANGE entry records old and new status. */
  function ChangeStatus(s: Store, id: int, status: string, version: int): (o: Outcome<TaskRecord>)
    ensures o.result.Err? ==> o.after == s
    ensures id !in s.tasks ==> o.result == Err(NotFound)
    ensures id in s.tasks && !IsAssigned(s.tasks[id].assignedUserId) ==> o.result == Err(MustBeAssigned)
    ensures (id in s.tasks && IsAssigned(s.tasks[id].assignedUserId)
             && s.tasks[id].status == "OPEN" && status == "DONE") ==> o.result == Err(InvalidTransition)
    ensures (id in s.tasks && IsAssigned(s.tasks[id].assignedUserId)
             && !(s.tasks[id].status == "OPEN" && status == "DONE")
             && version != s.tasks[id].version) ==> o.result == Err(Conflict)
    ensures o.result.Ok? <==>
      && id in s.tasks && IsAssigned(s.tasks[id].assignedUserId)
      && !(s.tasks[id].status == "OPEN" && status == "DONE")
      && version == s.tasks[id].version
    ensures o.result.Ok? ==>
      var was := s.tasks[id];
      && id in o.after.tasks
      && o.result.value == TaskRecord(id, o.after.tasks[id])
      && o.after.tasks[id] == was.(status := status, version := was.version + 1)
      && o.after.tasks.Keys == s.tasks.Keys
      && (forall j :: j in s.tasks && j != id ==> o.after.tasks[j] == s.tasks[j])
      && o.after.log == s.log + [LogEntry(id, StatusChange(was.status, status))]
      && o.after.nextId == s.nextId
  {
    if id !in s.tasks then Outcome(Err(NotFound), s)
    else
      var current := s.tasks[id];
      if !IsAssigned(current.assignedUserId) then Outcome(Err(MustBeAssigned), s)
      else if current.status == "OPEN" && status == "DONE" then Outcome(Err(InvalidTransition), s)
      else if current.version != version then Outcome(Err(Conflict), s)
      else
        var row := current.(status := status, version := current.version + 1);
        var entry := LogEntry(id, StatusChange(current.status, status));
        Outcome(Ok(TaskRecord(id, row)), Store(s.tasks[id := row], s.log + [entry], s.nextId))
  }

  /** assignTaskToUser: a mandatory version check, then the assignee is
      replaced, the version bumped and an ASSIGN_USER entry records the
      previous and the new assignee. */
  function Assign(s: Store, id: int, userId: Option<int>, version: int): (o: Outcome<TaskRecord>)
    ensures o.result.Err? ==> o.after == s
    ensures id !in s.tasks ==> o.result == Err(NotFound)
    ensures id in s.tasks && version != s.tasks[id].version ==> o.result == Err(Conflict)
    ensures o.result.Ok? <==> id in s.tasks && version == s.tasks[id].version
    ensures o.result.Ok? ==>
      var was := s.tasks[id];
      && id in o.after.tasks
      && o.result.value == TaskRecord(id, o.after.tasks[id])
      && o.after.tasks[id] == was.(assignedUserId := userId, version := was.version + 1)
      && o.after.tasks.Keys == s.tasks.Keys
      && (forall j :: j in s.tasks && j != id ==> o.after.tasks[j] == s.tasks[j])
      && o.after.log == s.log + [LogEntry(id, AssignUser(was.assignedUserId, userId))]
      && o.after.nextId == s.nextId
  {
    if id !in s.tasks then Outcome(Err(NotFound), s)
    else
      var current := s.tasks[id];
      if current.version != version then Outcome(Err(Conflict), s)
      else
        var row := current.(assignedUserId := userId, version := current.version + 1);
        var entry := LogEntry(id, AssignUser(current.assignedUserId, userId));
        Outcome(Ok(TaskRecord(id, row)), Store(s.tasks[id := row], s.log + [entry], s.nextId))
  }

  /** deleteTask: removes the row when it exists; no version check and no
      log entry. */
  function Delete(s: Store, id: int): (o: Outcome<bool>)
    ensures o.result.Ok? <==> id in s.tasks
    ensures o.result.Err? ==> o.result.error == NotFound && o.after == s
    ensures o.result.Ok? ==> o.result.value && o.after == Store(s.tasks - {id}, s.log, s.nextId)
  {
    if id !in s.tasks then Outcome(Err(NotFound), s)
    else Outcome(Ok(true), Store(s.tasks - {id}, s.log, s.nextId))
  }

  /* ================= the invariant is kept ================= */

  /** Appending one entry for `id` while bumping that task's version by one,
      and touching no other task, keeps the store consistent. */
  lemma CommitKeepsConsistency(s: Store, d: Defaults, id: int, row: TaskRow, c: Change)
    requires Consistent(s, d) && id in s.tasks
    requires row.version == s.tasks[id].version + 1
    ensures Consistent(Store(s.tasks[id := row], s.log + [LogEntry(id, c)], s.nextId), d)
  {
    var e := LogEntry(id, c);
    forall j | j in s.tasks
      ensures EntriesFor(s.log + [e], j) == EntriesFor(s.log, j) + (if j == id then [e] else [])
    {
      EntriesForAppend(s.log, e, j);
    }
  }

  lemma CreateKeepsConsistency(s: Store, d: Defaults, title: string, description: string, assignee: Option<int>)
    requires Consistent(s, d)
    ensures Consistent(Create(s, d, title, description, assignee).after, d)
  {
    EntriesForNone(s.log, s.nextId);
  }

  /** Each mutation keeps the invariant, whether it commits or not. */
  lemma UpdateDetailsKeepsConsistency(s: Store, d: Defaults, id: int, title: string, description: string,
                                      version: Option<int>)
    requires Consistent(s, d)
    ensures Consistent(UpdateDetails(s, id, title, description, version).after, d)
  {
    if UpdateDetails(s, id, title, description, version).result.Ok? {
      var cur := s.tasks[id];
      CommitKeepsConsistency(s, d, id, cur.(title := title, description := description, version := cur.version + 1),
                             DetailsUpdate(cur.title, cur.description, title, description));
    }
  }

  lemma ChangeStatusKeepsConsistency(s: Store, d: Defaults, id: int, status: string, version: int)
    requires Consistent(s, d)
    ensures Consistent(ChangeStatus(s, id, status, version).after, d)
  {
    if ChangeStatus(s, id, status, version).result.Ok? {
      var cur := s.tasks[id];
      CommitKeepsConsistency(s, d, id, cur.(status := status, version := cur.version + 1),
                             StatusChange(cur.status, status));
    }
  }

  lemma AssignKeepsConsistency(s: Store, d: Defaults, id: int, userId: Option<int>, version: int)
    requires Consistent(s, d)
    ensures Consistent(Assign(s, id, userId, version).after, d)
  {
    if Assign(s, id, userId, version).result.Ok? {
      var cur := s.tasks[id];
      CommitKeepsConsistency(s, d, id, cur.(assignedUserId := userId, version := cur.version + 1),
                             AssignUser(cur.assignedUserId, userId));
    }
  }

  /* ================= optimistic concurrency ================= */

  /** Two status changes that both start from the version they read: once
      the first commits, the second is rejected (with a conflict, or with
      the transition error when the first moved the task to OPEN and the
      second asks for DONE) and writes nothing; no update is lost. */
  lemma SecondStatusChangeLoses(s: Store, id: int, first: string, second: string, version: int)
    requires ChangeStatus(s, id, first, version).result.Ok?
    ensures var mid := ChangeStatus(s, id, first, version).after;
      var o := ChangeStatus(mid, id, second, version);
      && o.after == mid
      && o.result == (if first == "OPEN" && second == "DONE" then Err(InvalidTransition) else Err(Conflict))
  {
  }

  /** The same for two detail edits and for two assignments made from one
      observed version. */
  lemma SecondWriterLoses(s: Store, id: int, t1: string, d1: string, t2: string, d2: string,
                          u1: Option<int>, u2: Option<int>, version: int)
    ensures UpdateDetails(s, id, t1, d1, Some(version)).result.Ok? ==>
      var mid := UpdateDetails(s, id, t1, d1, Some(version)).after;
      UpdateDetails(mid, id, t2, d2, Some(version)) == Outcome(Err(Conflict), mid)
    ensures Assign(s, id, u1, version).result.Ok? ==>
      var mid := Assign(s, id, u1, version).after;
      Assign(mid, id, u2, version) == Outcome(Err(Conflict), mid)
  {
  }

  /** An edit without a version always wins: the version check is skipped. */
  lemma UnversionedEditNeverConflicts(s: Store, id: int, title: string, description: string)
    ensures UpdateDetails(s, id, title, description, None).result.Ok? <==> id in s.tasks
  {
  }

  /** The lifecycle walked through by hand: create without assignee, assign,
      try OPEN to DONE, move to IN_PROGRESS, then repeat that request with
      the version it was made from. */
  lemma Lifecycle()
    ensures
      var d := Defaults(1, "OPEN");
      var s0 := Store(map[], [], 1);
      var c := Create(s0, d, "Ship v1", "release", None);
      var a := Assign(c.after, 1, Some(5), 1);
      var bad := ChangeStatus(a.after, 1, "DONE", 2);
      var good := ChangeStatus(a.after, 1, "IN_PROGRESS", 2);
      var retry := ChangeStatus(good.after, 1, "IN_PROGRESS", 2);
      && c.result.value.id == 1 && c.after.tasks[1].version == 1
      && a.result.Ok? && a.after.tasks[1].version == 2 && |a.after.log| == 1
      && bad == Outcome(Err(InvalidTransition), a.after)
      && good.result.Ok? && good.after.tasks[1].version == 3 && good.after.tasks[1].status == "IN_PROGRESS"
      && |good.after.log| == 2
      && retry == Outcome(Err(Conflict), good.after)
  {
  }

  /* ================= the controller's call of createTask ================= */

  /** The create controller calls `createTask(title, description, created_by,
      assigned_user_id, deadline, comment, user)`, but the service takes
      `(title, description, assigned_user_id)`: the creator's id lands in
      the assignee column and the requested assignee is dropped. */
  function CreateAsCalled(s: Store, d: Defaults, title: string, description: string,
                          createdBy: int, assignedUserId: Option<int>): (o: Outcome<TaskRecord>)
    ensures o.result.Ok? && o.result.value.row.assignedUserId == Some(createdBy)
    ensures o.after.tasks == s.tasks[s.nextId := o.result.value.row]
  {
    Create(s, d, title, description, Some(createdBy))
  }

  /** A creator (user 7) assigning a new task to user 3 gets it assigned to
      themselves. */
  lemma CreateAsCalledAssignsCreator(s: Store, d: Defaults)
    ensures CreateAsCalled(s, d, "t", "d", 7, Some(3)).result.value.row.assignedUserId != Some(3)
  {
  }

  /** The call as evidently intended: the requested assignee (or none) is
      stored. */
  function CreateAsIntended(s: Store, d: Defaults, title: string, description: string,
                            createdBy: int, assignedUserId: Option<int>): (o: Outcome<TaskRecord>)
    ensures o.result.Ok? && o.result.value.row.assignedUserId == assignedUserId
    ensures o.result.value.row.version == d.version
    ensures o.after.tasks == s.tasks[s.nextId := o.result.value.row]
    ensures o.after.log == s.log
  {
    Create(s, d, title, description, assignedUserId)
  }

  /* ================= reading a task with its history ================= */

  /** `status.split('_').map(capitalise).join(' ')`, or "N/A" for a
      missing or empty status. */
  function FormatStatus(status: string): (r: string)
    ensures status == "" ==> r == "N/A"
    ensures status != "" ==> r == TitleCase(status, true)
  {
    if status == "" then "N/A"
    else
      TitleCaseOfWords(status, true);
      Join(MapCapitalize(Split(status, '_')), ' ')
  }

  /** `word.charAt(0).toUpperCase() + word.slice(1).toLowerCase()`. */
  function Capitalize(w: string): string
  {
    if w == [] then [] else [UpperChar(w[0])] + Lower(w[1..])
  }

  function MapCapitalize(words: seq<string>): (r: seq<string>)
    ensures |r| == |words|
    ensures forall i :: 0 <= i < |words| ==> r[i] == Capitalize(words[i])
  {
    if words == [] then [] else [Capitalize(words[0])] + MapCapitalize(words[1..])
  }

  /** Position i starts a word: it is the first letter (when the text
      starts a word) or follows an underscore. */
  predicate WordStart(s: string, atStart: bool, i: int)
    requires 0 <= i < |s|
  {
    if i == 0 then atStart else s[i - 1] == '_'
  }

  /** The same formatting, letter by letter: an underscore becomes a space
      and starts a new word; the first letter of a word is upper-cased and
      the others lower-cased. */
  function TitleCase(s: string, atStart: bool): (r: string)
    ensures |r| == |s|
    ensures forall i :: 0 <= i < |s| ==>
      r[i] == if s[i] == '_' then ' '
              else if WordStart(s, atStart, i) then UpperChar(s[i])
              else LowerChar(s[i])
  {
    if s == [] then []
    else
      var head := if s[0] == '_' then ' ' else if atStart then UpperChar(s[0]) else LowerChar(s[0]);
      assert forall i :: 1 <= i < |s| ==> WordStart(s, atStart, i) == WordStart(s[1..], s[0] == '_', i - 1);
      [head] + TitleCase(s[1..], s[0] == '_')
  }

  function FirstWord(atStart: bool, w: string): string
  {
    if atStart then Capitalize(w) else Lower(w)
  }

  lemma {:induction false} TitleCaseOfWords(s: string, atStart: bool)
    ensures var words := Split(s, '_');
      Join([FirstWord(atStart, words[0])] + MapCapitalize(words[1..]), ' ') == TitleCase(s, atStart)
    decreases |s|
  {
    if s != [] {
      var rest := Split(s[1..], '_');
      var words := Split(s, '_');
      if s[0] == '_' {
        TitleCaseOfWords(s[1..], true);
        assert words[1..] == rest;
        assert MapCapitalize(rest) == [Capitalize(rest[0])] + MapCapitalize(rest[1..]);
        assert FirstWord(atStart, words[0]) == "";
        assert ([""] + MapCapitalize(rest))[1..] == MapCapitalize(rest);
      } else {
        TitleCaseOfWords(s[1..], false);
        assert words[0] == [s[0]] + rest[0] && words[1..] == rest[1..];
        var c := if atStart then UpperChar(s[0]) else LowerChar(s[0]);
        assert Lower([s[0]] + rest[0]) == [LowerChar(s[0])] + Lower(rest[0]);
        assert ([s[0]] + rest[0])[1..] == rest[0];
        assert FirstWord(atStart, words[0]) == [c] + Lower(rest[0]);
        JoinConsHead(c, Lower(rest[0]), MapCapitalize(rest[1..]), ' ');
      }
    }
  }

  /* The letter-wise formatting of IN_PROGRESS, position by position. */

  lemma InProgressHead(s: string, r: string)
    requires s == "IN_PROGRESS" && r == TitleCase(s, true)
    ensures r[0] == 'I' && r[1] == 'n' && r[2] == ' ' && r[3] == 'P' && r[4] == 'r'
  {
    assert r[0] == UpperChar('I');
    assert r[1] == LowerChar('N');
    assert r[3] == UpperChar('P');
    assert r[4] == LowerChar('R');
  }

  lemma InProgressTail(s: string, r: string)
    requires s == "IN_PROGRESS" && r == TitleCase(s, true)
    ensures r[5] == 'o' && r[6] == 'g' && r[7] == 'r' && r[8] == 'e' && r[9] == 's' && r[10] == 's'
  {
    assert r[5] == LowerChar('O');
    assert r[6] == LowerChar('G');
    assert r[7] == LowerChar('R');
    assert r[8] == LowerChar('E');
    assert r[9] == LowerChar('S');
    assert r[10] == LowerChar('S');
  }

  lemma TitleCaseInProgress(s: string)
    requires s == "IN_PROGRESS"
    ensures TitleCase(s, true) == "In Progress"
  {
    var r := TitleCase(s, true);
    InProgressHead(s, r);
    InProgressTail(s, r);
  }

  lemma FormatStatusInProgress()
    ensures FormatStatus("IN_PROGRESS") == "In Progress"
  {
    TitleCaseInProgress("IN_PROGRESS");
  }

  /** How a log value is shown once the history has been read. */
  datatype Shown = NullValue | Text(text: string) | Snapshot(title: string, description: string)

  datatype ShownEntry = ShownEntry(actionType: string, oldValue: Shown, newValue: Shown)

  /** The display name of a stored assignee: "Unassigned" for none, the
      user's name when the user exists with a non-empty name, "User #<id>"
      otherwise. */
  function UserLabel(users: map<int, string>, v: Option<int>): (r: string)
    ensures v.None? ==> r == "Unassigned"
    ensures v.Some? && v.value in users && users[v.value] != "" ==> r == users[v.value]
    ensures v.Some? && !(v.value in users && users[v.value] != "") ==> r == "User #" + IntToString(v.value)
  {
    match v
    case None => "Unassigned"
    case Some(u) => if u in users && users[u] != "" then users[u] else "User #" + IntToString(u)
  }

  /** The stored text of an assignee column value. */
  function StoredUser(v: Option<int>): Shown
  {
    match v
    case None => NullValue
    case Some(u) => Text(IntToString(u))
  }

  /** One entry as `getTaskById` returns it. `resolve` says whether any user
      id was collected from the task's ASSIGN_USER entries; only then are
      assignees turned into names. Status tokens are always formatted. */
  function Display(e: LogEntry, users: map<int, string>, resolve: bool): (r: ShownEntry)
    ensures r.actionType == ActionType(e.change)
    ensures e.change.DetailsUpdate? ==>
      r.oldValue == Snapshot(e.change.oldTitle, e.change.oldDescription) &&
      r.newValue == Snapshot(e.change.newTitle, e.change.newDescription)
    ensures e.change.StatusChange? ==>
      r.oldValue == Text(FormatStatus(e.change.oldStatus)) && r.newValue == Text(FormatStatus(e.change.newStatus))
    ensures e.change.AssignUser? && resolve ==>
      r.oldValue == Text(UserLabel(users, e.change.oldUser)) && r.newValue == Text(UserLabel(users, e.change.newUser))
    ensures e.change.AssignUser? && !resolve ==>
      r.oldValue == StoredUser(e.change.oldUser) && r.newValue == StoredUser(e.change.newUser)
  {
    match e.change
    case DetailsUpdate(ot, od, nt, nd) => ShownEntry("UPDATE_TASK", Snapshot(ot, od), Snapshot(nt, nd))
    case StatusChange(os, ns) => ShownEntry("STATUS_CHANGE", Text(FormatStatus(os)), Text(FormatStatus(ns)))
    case AssignUser(ou, nu) =>
      if resolve then ShownEntry("ASSIGN_USER", Text(UserLabel(users, ou)), Text(UserLabel(users, nu)))
      else ShownEntry("ASSIGN_USER", StoredUser(ou), StoredUser(nu))
  }

  /** The user ids an entry carries (ASSIGN_USER entries only). */
  function UserIdsOf(e: LogEntry): set<int>
  {
    match e.change
    case AssignUser(ou, nu) =>
      (if ou.Some? then {ou.value} else {}) + (if nu.Some? then {nu.value} else {})
    case _ => {}
  }

  function UserIdsIn(entries: seq<LogEntry>): set<int>
  {
    if entries == [] then {}
    else UserIdsIn(entries[..|entries| - 1]) + UserIdsOf(entries[|entries| - 1])
  }

  /** No user id is collected exactly when every ASSIGN_USER entry has
      neither an old nor a new assignee. */
  lemma {:induction false} UserIdsInEmpty(entries: seq<LogEntry>)
    ensures UserIdsIn(entries) == {} <==> forall i :: 0 <= i < |entries| ==> UserIdsOf(entries[i]) == {}
  {
    if entries != [] {
      var init := entries[..|entries| - 1];
      UserIdsInEmpty(init);
      assert forall i :: 0 <= i < |init| ==> init[i] == entries[i];
    }
  }

  function Reverse<T>(s: seq<T>): (r: seq<T>)
    ensures |r| == |s|
    ensures forall i :: 0 <= i < |s| ==> r[i] == s[|s| - 1 - i]
  {
    if s == [] then [] else [s[|s| - 1]] + Reverse(s[..|s| - 1])
  }

  function DisplayAll(entries: seq<LogEntry>, users: map<int, string>, resolve: bool): (r: seq<ShownEntry>)
    ensures |r| == |entries|
    ensures forall i :: 0 <= i < |entries| ==> r[i] == Display(entries[i], users, resolve)
  {
    if entries == [] then [] else [Display(entries[0], users, resolve)] + DisplayAll(entries[1..], users, resolve)
  }

  /** A task as `getTaskById` returns it. */
  datatype TaskDetails = TaskDetails(task: TaskRecord, assignedUserName: Option<string>, activityLogs: seq<ShownEntry>)

  /** A task's log entries as the history shows them: newest first, each
      entry displayed, assignees resolved only when some assignment in the
      history carries a user id. */
  function History(entries: seq<LogEntry>, users: map<int, string>): (r: seq<ShownEntry>)
    ensures |r| == |entries|
    ensures forall k :: 0 <= k < |entries| ==>
      r[k] == Display(entries[|entries| - 1 - k], users, UserIdsIn(entries) != {})
  {
    DisplayAll(Reverse(entries), users, UserIdsIn(entries) != {})
  }

  /** getTaskById: 404 for an unknown id; otherwise the row, the assignee's
      name from the users table (a LEFT JOIN) and the displayed history. */
  function TaskById(s: Store, id: int, users: map<int, string>): (r: Result<TaskDetails, AppError>)
    ensures r.Err? <==> id !in s.tasks
    ensures r.Err? ==> r.error == NotFound
    ensures r.Ok? ==> r.value.task == TaskRecord(id, s.tasks[id])
    ensures r.Ok? ==> r.value.activityLogs == History(EntriesFor(s.log, id), users)
    ensures r.Ok? ==>
      var a := s.tasks[id].assignedUserId;
      (r.value.assignedUserName.Some? <==> a.Some? && a.value in users) &&
      (r.value.assignedUserName.Some? ==> r.value.assignedUserName.value == users[a.value])
  {
    if id !in s.tasks then Err(NotFound)
    else
      var a := s.tasks[id].assignedUserId;
      var name := if a.Some? && a.value in users then Some(users[a.value]) else None;
      Ok(TaskDetails(TaskRecord(id, s.tasks[id]), name, History(EntriesFor(s.log, id), users)))
  }

  /** When the history holds an assignment at all, every assignment in it is
      shown by name: "Unassigned" for none, never a bare id. */
  lemma AssignmentsShownByName(entries: seq<LogEntry>, users: map<int, string>, k: int)
    requires 0 <= k < |entries|
    requires var e := entries[|entries| - 1 - k];
      e.change.AssignUser? && (e.change.oldUser.Some? || e.change.newUser.Some?)
    ensures var e := entries[|entries| - 1 - k];
      History(entries, users)[k] ==
        ShownEntry("ASSIGN_USER", Text(UserLabel(users, e.change.oldUser)), Text(UserLabel(users, e.change.newUser)))
  {
    var i := |entries| - 1 - k;
    assert UserIdsOf(entries[i]) != {};
    UserIdsInEmpty(entries);
  }

  /** An assignment carrying no user id names neither side. */
  lemma NoIdsNoUsers(e: LogEntry)
    requires e.change.AssignUser? && UserIdsOf(e) == {}
    ensures e.change.oldUser.None? && e.change.newUser.None?
  {
  }

  /** When no assignment in the history names a user, ASSIGN_USER entries
      keep their stored null values instead of reading "Unassigned". */
  lemma UnresolvedAssignmentsStayNull(entries: seq<LogEntry>, users: map<int, string>, k: int)
    requires 0 <= k < |entries| && UserIdsIn(entries) == {}
    requires entries[|entries| - 1 - k].change.AssignUser?
    ensures History(entries, users)[k] == ShownEntry("ASSIGN_USER", NullValue, NullValue)
  {
    UserIdsInEmpty(entries);
    NoIdsNoUsers(entries[|entries| - 1 - k]);
  }

  /* ================= the store as the service changes it ================= */

  class TaskStore {
    var tasks: map<int, TaskRow>
    var log: seq<LogEntry>
    var nextId: int
    const defaults: Defaults

    function State(): Store
      reads this
    {
      Store(tasks, log, nextId)
    }

    ghost predicate Valid()
      reads this
    {
      Consistent(State(), defaults)
    }

    /** An empty database whose tasks table has the given column defaults. */
    constructor (defaults: Defaults)
      ensures Valid() && this.defaults == defaults
      ensures State() == Store(map[], [], 1)
    {
      this.defaults := defaults;
      tasks, log, nextId := map[], [], 1;
    }

    method CreateTask(title: string, description: string, assignee: Option<int>) returns (task: TaskRecord)
      requires Valid()
      modifies this
      ensures Valid()
      ensures Outcome(Ok(task), State()) == Create(old(State()), defaults, title, description, assignee)
    {
      CreateKeepsConsistency(State(), defaults, title, description, assignee);
      // INSERT INTO tasks(title, description, assigned_user_id) ... RETURNING *
      var row := TaskRow(title, description, defaults.status, assignee, defaults.version);
      task := TaskRecord(nextId, row);
      tasks := tasks[nextId := row];
      nextId := nextId + 1;
    }

    method UpdateTask(id: int, title: string, description: string, version: Option<int>)
      returns (r: Result<TaskRecord, AppError>)
      requires Valid()
      modifies this
      ensures Valid()
      ensures Outcome(r, State()) == UpdateDetails(old(State()), id, title, description, version)
    {
      ghost var s := State();
      ghost var o := UpdateDetails(s, id, title, description, version);
      UpdateDetailsKeepsConsistency(s, defaults, id, title, description, version);
      // BEGIN; SELECT title, description, version
      if id !in tasks {
        assert o == Outcome(Err(NotFound), s);
        return Err(NotFound);  // ROLLBACK: nothing was written
      }
      var current := tasks[id];
      if version.Some? && version.value != current.version {
        assert o == Outcome(Err(Conflict), s);
        return Err(Conflict);  // ROLLBACK
      }
      // UPDATE tasks SET title, description, version = version + 1
      var row := current.(title := title, description := description, version := current.version + 1);
      tasks := tasks[id := row];
      // INSERT INTO activity_logs
      log := log + [LogEntry(id, DetailsUpdate(current.title, current.description, title, description))];
      // COMMIT
      r := Ok(TaskRecord(id, row));
      assert o == Outcome(r, State());
    }

    method UpdateTaskStatus(id: int, status: string, version: int) returns (r: Result<TaskRecord, AppError>)
      requires Valid()
      modifies this
      ensures Valid()
      ensures Outcome(r, State()) == ChangeStatus(old(State()), id, status, version)
    {
      ghost var s := State();
      ghost var o := ChangeStatus(s, id, status, version);
      ChangeStatusKeepsConsistency(s, defaults, id, status, version);
      // BEGIN; SELECT status, assigned_user_id, version
      if id !in tasks {
        assert o == Outcome(Err(NotFound), s);
        return Err(NotFound);  // ROLLBACK
      }
      var current := tasks[id];
      if !IsAssigned(current.assignedUserId) {
        assert o == Outcome(Err(MustBeAssigned), s);
        return Err(MustBeAssigned);  // ROLLBACK
      }
      if current.status == "OPEN" && status == "DONE" {
        assert o == Outcome(Err(InvalidTransition), s);
        return Err(InvalidTransition);  // ROLLBACK
      }
      if current.version != version {
        assert o == Outcome(Err(Conflict), s);
        return Err(Conflict);  // ROLLBACK
      }
      // UPDATE tasks SET status, version = version + 1 WHERE id AND version
      var row := current.(status := status, version := current.version + 1);
      tasks := tasks[id := row];
      // INSERT INTO activity_logs ... 'STATUS_CHANGE'
      log := log + [LogEntry(id, StatusChange(current.status, status))];
      // COMMIT
      r := Ok(TaskRecord(id, row));
      assert o == Outcome(r, State());
    }

    method AssignTaskToUser(id: int, userId: Option<int>, version: int) returns (r: Result<TaskRecord, AppError>)
      requires Valid()
      modifies this
      ensures Valid()
      ensures Outcome(r, State()) == Assign(old(State()), id, userId, version)
    {
      ghost var s := State();
      ghost var o := Assign(s, id, userId, version);
      AssignKeepsConsistency(s, defaults, id, userId, version);
      // BEGIN; SELECT assigned_user_id, version
      if id !in tasks {
        assert o == Outcome(Err(NotFound), s);
        return Err(NotFound);  // ROLLBACK
      }
      var current := tasks[id];
      if current.version != version {
        assert o == Outcome(Err(Conflict), s);
        return Err(Conflict);  // ROLLBACK
      }
      // UPDATE tasks SET assigned_user_id, version = version + 1 WHERE id AND version
      var row := current.(assignedUserId := userId, version := current.version + 1);
      tasks := tasks[id := row];
      // INSERT INTO activity_logs ... 'ASSIGN_USER'
      log := log + [LogEntry(id, AssignUser(current.assignedUserId, userId))];
      // COMMIT
      r := Ok(TaskRecord(id, row));
      assert o == Outcome(r, State());
    }

    method DeleteTask(id: int) returns (r: Result<bool, AppError>)
      requires Valid()
      modifies this
      ensures Valid()
      ensures Outcome(r, State()) == Delete(old(State()), id)
    {
      // DELETE FROM tasks WHERE id; rowCount 0 means not found
      if id !in tasks {
        return Err(NotFound);
      }
      tasks := tasks - {id};
      r := Ok(true);
    }

    /** getTaskById, reading the table and the log; the loop collects the
        user ids named by the task's ASSIGN_USER entries. */
    method GetTaskById(id: int, users: map<int, string>) returns (r: Result<TaskDetails, AppError>)
      ensures r == TaskById(State(), id, users)
    {
      if id !in tasks {
        return Err(NotFound);
      }
      var entries := EntriesFor(log, id);
      var userIds: set<int> := {};
      var i := 0;
      while i < |entries|
        invariant 0 <= i <= |entries|
        invariant userIds == UserIdsIn(entries[..i])
      {
        assert entries[..i + 1][..i] == entries[..i];
        userIds := userIds + UserIdsOf(entries[i]);
        i := i + 1;
      }
      assert entries[..i] == entries;
      var a := tasks[id].assignedUserId;
      var name := if a.Some? && a.value in users then Some(users[a.value]) else None;
      r := Ok(TaskDetails(TaskRecord(id, tasks[id]), name, DisplayAll(Reverse(entries), users, userIds != {})));
    }
  }
}
