/** The task detail screen of the web client: the avatar initials, the
    status badge, the assignee line, the deadline badge, loading the task
    and adding a comment. */
module TaskDetail {
  import opened Common

  /* ---------------- initials ---------------- */

  /** `.map(n => n[0]).join('')`: the first character of each word; an
      empty word gives `undefined`, which `join` prints as nothing. */
  function FirstChars(words: seq<string>): (r: string)
    ensures |r| <= |words|
  {
    if words == [] then ""
    else (if words[0] == "" then "" else [words[0][0]]) + FirstChars(words[1..])
  }

  /** A character-level reading of the same thing: the characters that
      are not a space and follow a space or the start of the text. */
  function WordStarts(s: string, afterSpace: bool): string
  {
    if s == [] then ""
    else (if s[0] != ' ' && afterSpace then [s[0]] else "") + WordStarts(s[1..], s[0] == ' ')
  }

  /** Splitting on spaces and taking first characters picks exactly the
      word starts; dropping the first piece drops the start of the text. */
  lemma {:induction false} FirstCharsOfSplit(s: string)
    ensures FirstChars(Split(s, ' ')) == WordStarts(s, true)
    ensures FirstChars(Split(s, ' ')[1..]) == WordStarts(s, false)
    decreases |s|
  {
    if s != [] {
      var rest := Split(s[1..], ' ');
      FirstCharsOfSplit(s[1..]);
      if s[0] == ' ' {
        assert Split(s, ' ') == [""] + rest;
        assert ([""] + rest)[1..] == rest;
      } else {
        var words := [[s[0]] + rest[0]] + rest[1..];
        assert Split(s, ' ') == words;
        assert words[1..] == rest[1..];
        assert FirstChars(rest) == (if rest[0] == "" then "" else [rest[0][0]]) + FirstChars(rest[1..]);
      }
    }
  }

  /** initials: the upper-cased first letters of the space-separated
      words, in order, never more than there are words. */
  function Initials(name: string): (r: string)
    ensures |r| <= |Split(name, ' ')|
    ensures r == Upper(WordStarts(name, true))
  {
    FirstCharsOfSplit(name);
    Upper(FirstChars(Split(name, ' ')))
  }

  /** Every initial is an upper-cased character of the name that is not a
      space. */
  lemma InitialsComeFromName(name: string)
    ensures forall c :: c in Initials(name) ==> c in Upper(name) && c != ' '
  {
    var ws := WordStarts(name, true);
    WordStartsFromText(name, true);
    forall c | c in Initials(name)
      ensures c in Upper(name) && c != ' '
    {
      var i :| 0 <= i < |Initials(name)| && Initials(name)[i] == c;
      assert ws[i] in name;
      var j :| 0 <= j < |name| && name[j] == ws[i];
      assert Upper(name)[j] == c;
    }
  }

  lemma {:induction false} WordStartsFromText(s: string, afterSpace: bool)
    ensures forall c :: c in WordStarts(s, afterSpace) ==> c in s && c != ' '
    decreases |s|
  {
    if s != [] {
      WordStartsFromText(s[1..], s[0] == ' ');
      var head := if s[0] != ' ' && afterSpace then [s[0]] else "";
      assert WordStarts(s, afterSpace) == head + WordStarts(s[1..], s[0] == ' ');
      assert forall c :: c in s[1..] ==> c in s;
    }
  }

  /* ---------------- badges ---------------- */

  /** getStatusClass: one badge per known status, none otherwise. */
  function GetStatusClass(status: string): (c: string)
    ensures c != "" <==> status in {"OPEN", "IN_PROGRESS", "DONE"}
    ensures status == "OPEN" ==> c == "bg-blue-100 text-blue-800"
    ensures status == "IN_PROGRESS" ==> c == "bg-yellow-100 text-yellow-800"
    ensures status == "DONE" ==> c == "bg-green-100 text-green-800"
  {
    match status
    case "OPEN" => "bg-blue-100 text-blue-800"
    case "IN_PROGRESS" => "bg-yellow-100 text-yellow-800"
    case "DONE" => "bg-green-100 text-green-800"
    case _ => ""
  }

  /** Distinct known statuses get distinct badges. */
  lemma StatusClassesDistinct(a: string, b: string)
    requires GetStatusClass(a) != ""
    ensures GetStatusClass(a) == GetStatusClass(b) <==> a == b
  {
  }

  datatype AssignedUser = AssignedUser(name: string)

  /** The task as the detail screen holds it. */
  datatype DetailTask = DetailTask(id: int, version: int, assignedUser: Option<AssignedUser>)

  /** getAssignedUser: `task?.assignedUser?.name || 'Unassigned'`. */
  function GetAssignedUser(task: Option<DetailTask>): (name: string)
    ensures name != ""
    ensures name == "Unassigned" <==>
      task.None? || task.value.assignedUser.None? || task.value.assignedUser.value.name in {"", "Unassigned"}
    ensures name != "Unassigned" ==> name == task.value.assignedUser.value.name
  {
    if task.Some? && task.value.assignedUser.Some? && task.value.assignedUser.value.name != ""
    then task.value.assignedUser.value.name
    else "Unassigned"
  }

  /** The deadline badge: its text and its CSS classes. */
  datatype Badge = Badge(text: string, cls: string)

  /** ` day` or ` days`. */
  function Days(n: nat): string
  {
    "day" + (if n > 1 then "s" else "")
  }

  /** getRemainingInfo over the whole-day difference between the deadline
      and today (None when there is no deadline). */
  function GetRemainingInfo(days: Option<int>): (b: Badge)
    ensures days.None? ==> b == Badge(" ", "text-gray-400")
    ensures days.Some? && days.value < 0 ==>
      b == Badge("Overdue by " + NatToString(-days.value) + " " + Days(-days.value), "bg-red-100 text-red-800")
    ensures days == Some(0) ==> b == Badge("Due Today", "bg-orange-100 text-orange-800")
    ensures days == Some(1) ==> b == Badge("Due Tomorrow", "bg-yellow-100 text-orange-800")
    ensures days.Some? && days.value > 1 ==>
      b == Badge(NatToString(days.value) + " days left", "bg-green-100 text-green-800")
  {
    match days
    case None => Badge(" ", "text-gray-400")
    case Some(d) =>
      if d < 0 then Badge("Overdue by " + NatToString(-d) + " " + Days(-d), "bg-red-100 text-red-800")
      else if d == 0 then Badge("Due Today", "bg-orange-100 text-orange-800")
      else if d == 1 then Badge("Due Tomorrow", "bg-yellow-100 text-orange-800")
      else Badge(NatToString(d) + " day" + (if d > 1 then "s" else "") + " left", "bg-green-100 text-green-800")
  }

  /** The fourth character of the badge class tells the five kinds of
      badge apart: gray (no deadline), red, orange, yellow, green. */
  function Tier(days: Option<int>): char
  {
    match days
    case None => 't'
    case Some(d) => if d < 0 then 'r' else if d == 0 then 'o' else if d == 1 then 'y' else 'g'
  }

  lemma BadgeTier(days: Option<int>)
    ensures |GetRemainingInfo(days).cls| > 3 && GetRemainingInfo(days).cls[3] == Tier(days)
  {
  }

  lemma OverdueBadgeGivesDays(d: int, e: int)
    requires d < 0 && e < 0 && GetRemainingInfo(Some(d)) == GetRemainingInfo(Some(e))
    ensures d == e
  {
    assert GetRemainingInfo(Some(d)).text == GetRemainingInfo(Some(e)).text;
    OverdueLabelGivesDays(-d, -e);
  }

  lemma LaterBadgeGivesDays(d: int, e: int)
    requires d > 1 && e > 1 && GetRemainingInfo(Some(d)) == GetRemainingInfo(Some(e))
    ensures d == e
  {
    assert GetRemainingInfo(Some(d)).text == GetRemainingInfo(Some(e)).text;
    LaterLabelGivesDays(d, e);
  }

  /** The badge tells overdue, today, tomorrow, later and no deadline
      apart by its class, and within the overdue and later classes the
      label gives the number of days back. */
  lemma RemainingInfoDetermines(d: int, e: int)
    ensures GetRemainingInfo(Some(d)) == GetRemainingInfo(Some(e)) ==> d == e
    ensures GetRemainingInfo(Some(d)) != GetRemainingInfo(None)
  {
    BadgeTier(Some(d));
    BadgeTier(None);
    if GetRemainingInfo(Some(d)) == GetRemainingInfo(Some(e)) {
      BadgeTier(Some(e));
      if d < 0 {
        OverdueBadgeGivesDays(d, e);
      } else if d > 1 {
        LaterBadgeGivesDays(d, e);
      }
    }
  }

  /** The position of the first space, or the length when there is none. */
  function SpaceAt(s: string): (r: nat)
    ensures r <= |s|
    ensures r < |s| ==> s[r] == ' '
  {
    if s == [] || s[0] == ' ' then 0 else 1 + SpaceAt(s[1..])
  }

  /** Printed digits followed by a space: the space comes right after them. */
  lemma {:induction false} SpaceAfterDigits(x: string, t: string)
    requires forall i :: 0 <= i < |x| ==> '0' <= x[i] <= '9'
    ensures SpaceAt(x + " " + t) == |x|
  {
    if x != [] {
      assert (x + " " + t)[1..] == x[1..] + " " + t;
      SpaceAfterDigits(x[1..], t);
    }
  }

  /** Two texts made of the same prefix, printed digits, a space and any
      tail carry the same digits. */
  lemma DigitsAfterPrefix(p: string, x: string, t: string, y: string, u: string)
    requires forall i :: 0 <= i < |x| ==> '0' <= x[i] <= '9'
    requires forall i :: 0 <= i < |y| ==> '0' <= y[i] <= '9'
    requires p + x + " " + t == p + y + " " + u
    ensures x == y
  {
    var l := p + x + " " + t;
    assert l[|p|..] == x + " " + t;
    assert l[|p|..] == y + " " + u;
    SpaceAfterDigits(x, t);
    SpaceAfterDigits(y, u);
    assert x == (x + " " + t)[..|x|];
    assert y == (y + " " + u)[..|y|];
  }

  lemma OverdueLabelGivesDays(m: nat, n: nat)
    requires m > 0 && n > 0
    requires "Overdue by " + NatToString(m) + " " + Days(m) == "Overdue by " + NatToString(n) + " " + Days(n)
    ensures m == n
  {
    DigitsAfterPrefix("Overdue by ", NatToString(m), Days(m), NatToString(n), Days(n));
    NatToStringInjective(m, n);
  }

  lemma LaterLabelGivesDays(m: nat, n: nat)
    requires NatToString(m) + " days left" == NatToString(n) + " days left"
    ensures m == n
  {
    var x := NatToString(m);
    var y := NatToString(n);
    assert |x| == |y|;
    assert x == (x + " days left")[..|x|];
    assert y == (y + " days left")[..|y|];
    NatToStringInjective(m, n);
  }

  /* ---------------- the component ---------------- */

  /** `addComment`'s guard: a task is loaded and the message is not blank. */
  function CanComment(task: Option<DetailTask>, message: string): (b: bool)
    ensures b <==> task.Some? && !AllWhitespace(message)
  {
    TrimEmptyIff(message);
    task.Some? && Trim(message) != []
  }

  /** How the service's request ended: the task, or an error with its
      message and HTTP status. */
  datatype Fetched = Loaded(task: DetailTask) | Failed(message: string, status: int)

  class TaskDetailComponent {
    var task: Option<DetailTask>
    var isLoading: bool
    var error: Option<string>
    var newComment: string
    var redirectScheduled: bool

    constructor ()
      ensures task.None? && isLoading && error.None? && newComment == "" && !redirectScheduled
    {
      task := None;
      isLoading := true;
      error := None;
      newComment := "";
      redirectScheduled := false;
    }

    /** ngOnInit: `id` is `Number` of the route parameter (None for NaN).
      A falsy id returns at once and leaves the spinner on; otherwise the
      fetched task is shown, a missing task schedules the way back, any
      other failure shows its message, and loading always ends. */
    method NgOnInit(id: Option<int>, fetched: Fetched)
      modifies this
      ensures id.None? || id == Some(0) ==>
        task == old(task) && isLoading == old(isLoading) && error == old(error)
        && redirectScheduled == old(redirectScheduled)
      ensures id.Some? && id.value != 0 ==> !isLoading
      ensures (id.Some? && id.value != 0 && fetched.Loaded?) ==>
        task == Some(fetched.task) && error == old(error) && redirectScheduled == old(redirectScheduled)
      ensures (id.Some? && id.value != 0 && fetched.Failed? &&
               (fetched.message == "Task not found" || fetched.status == 404)) ==>
        task.None? && redirectScheduled && error == old(error)
      ensures (id.Some? && id.value != 0 && fetched.Failed? &&
               fetched.message != "Task not found" && fetched.status != 404) ==>
        error == Some(if fetched.message == "" then "Failed to load task" else fetched.message)
        && task == old(task) && redirectScheduled == old(redirectScheduled)
      ensures newComment == old(newComment)
    {
      if id.None? || id.value == 0 {
        return;
      }
      match fetched {
        case Loaded(t) =>
          task := Some(t);
        case Failed(message, status) =>
          if message == "Task not found" || status == 404 {
            task := None;
            redirectScheduled := true;
          } else {
            error := Some(if message == "" then "Failed to load task" else message);
          }
      }
      isLoading := false;
    }

    /** addComment: nothing happens without a task or with a blank
      message; after the comment is posted the task is fetched again and
      the box is cleared; a failure is only logged. `reloaded` is the
      outcome of posting and fetching again. */
    method AddComment(reloaded: Option<DetailTask>)
      modifies this
      ensures !old(CanComment(task, newComment)) ==> task == old(task) && newComment == old(newComment)
      ensures old(CanComment(task, newComment)) && reloaded.Some? ==> task == reloaded && newComment == ""
      ensures reloaded.None? ==> task == old(task) && newComment == old(newComment)
      ensures isLoading == old(isLoading) && error == old(error) && redirectScheduled == old(redirectScheduled)
    {
      if !CanComment(task, newComment) {
        return;
      }
      if reloaded.Some? {
        task := reloaded;
        newComment := "";
      }
    }
  }
}
