/** The notification inbox: a `notifications` table that notifications are
    inserted into, listed from per user, and marked read in. Row ids come
    from a serial counter, so they grow with insertion order, and newest
    first is reverse insertion order. */
module NotificationService {
  import opened Common

  datatype Notification = Notification(
    id: int,
    userId: int,
    taskId: Option<int>,
    kind: string,
    message: string,
    isRead: bool)

  /** Ids strictly increase along the table. */
  ghost predicate IdsAscending(rows: seq<Notification>)
  {
    forall i, j :: 0 <= i < j < |rows| ==> rows[i].id < rows[j].id
  }

  /** Ids strictly decrease along a listing: newest first. */
  ghost predicate IdsDescending(rows: seq<Notification>)
  {
    forall i, j :: 0 <= i < j < |rows| ==> rows[i].id > rows[j].id
  }

  /** The WHERE clause of the inbox query. */
  predicate Listed(n: Notification, userId: int, onlyUnread: bool)
  {
    n.userId == userId && (!onlyUnread || !n.isRead)
  }

  /** The inbox query: the user's rows (only the unread ones when asked),
      newest first. */
  function Inbox(rows: seq<Notification>, userId: int, onlyUnread: bool): (r: seq<Notification>)
    ensures |r| <= |rows|
    ensures forall n :: n in r <==> n in rows && Listed(n, userId, onlyUnread)
  {
    if rows == [] then []
    else Inbox(rows[1..], userId, onlyUnread) + (if Listed(rows[0], userId, onlyUnread) then [rows[0]] else [])
  }

  /** Listing a table whose ids ascend gives the newest row first. */
  lemma {:induction false} InboxNewestFirst(rows: seq<Notification>, userId: int, onlyUnread: bool)
    requires IdsAscending(rows)
    ensures IdsDescending(Inbox(rows, userId, onlyUnread))
    decreases |rows|
  {
    if rows != [] {
      InboxNewestFirst(rows[1..], userId, onlyUnread);
      var rest := Inbox(rows[1..], userId, onlyUnread);
      forall n | n in rest
        ensures n.id > rows[0].id
      {
        var k :| 0 <= k < |rows[1..]| && rows[1..][k] == n;
        assert rows[k + 1] == n;
      }
    }
  }

  /** `SET is_read = TRUE WHERE id = ANY(ids)`, with no check of whose
      notification it is. */
  function MarkRead(rows: seq<Notification>, ids: seq<int>): (r: seq<Notification>)
    ensures |r| == |rows|
    ensures forall i :: 0 <= i < |rows| ==>
              r[i] == (if rows[i].id in ids then rows[i].(isRead := true) else rows[i])
  {
    seq(|rows|, i requires 0 <= i < |rows| => if rows[i].id in ids then rows[i].(isRead := true) else rows[i])
  }

  /** Marking the same ids twice leaves the table as marking them once, and
      marking keeps the ids (so the table stays ordered). */
  lemma MarkReadIdempotent(rows: seq<Notification>, ids: seq<int>)
    ensures MarkRead(MarkRead(rows, ids), ids) == MarkRead(rows, ids)
    ensures IdsAscending(rows) ==> IdsAscending(MarkRead(rows, ids))
  {
  }

  /** The rows an UPDATE ... RETURNING * hands back: those whose id was
      listed, as they are after the update. */
  function Returned(rows: seq<Notification>, ids: seq<int>): (r: seq<Notification>)
    ensures forall n :: n in r <==> n in rows && n.id in ids
  {
    if rows == [] then []
    else (if rows[0].id in ids then [rows[0]] else []) + Returned(rows[1..], ids)
  }

  class NotificationTable {
    var rows: seq<Notification>
    var nextId: int

    ghost predicate Valid()
      reads this
    {
      IdsAscending(rows) && forall i :: 0 <= i < |rows| ==> rows[i].id < nextId
    }

    constructor ()
      ensures Valid() && rows == [] && nextId == 1
    {
      rows := [];
      nextId := 1;
    }

    /** createNotification: inserts one unread row for the recipient and
      returns it; `taskId` is null unless given. */
    method CreateNotification(userId: int, kind: string, message: string, taskId: Option<int>)
      returns (n: Notification)
      requires Valid()
      modifies this
      ensures Valid()
      ensures n == Notification(old(nextId), userId, taskId, kind, message, false)
      ensures rows == old(rows) + [n] && nextId == old(nextId) + 1
    {
      n := Notification(nextId, userId, taskId, kind, message, false);
      rows := rows + [n];
      nextId := nextId + 1;
    }

    /** getNotificationsByUser: the inbox query, read from the newest row
      back. */
    method GetNotificationsByUser(userId: int, onlyUnread: bool) returns (result: seq<Notification>)
      requires Valid()
      ensures result == Inbox(rows, userId, onlyUnread)
      ensures IdsDescending(result)
    {
      result := [];
      var i := |rows|;
      while i > 0
        invariant 0 <= i <= |rows|
        invariant result == Inbox(rows[i..], userId, onlyUnread)
      {
        i := i - 1;
        assert rows[i..][1..] == rows[i + 1..];
        if Listed(rows[i], userId, onlyUnread) {
          result := result + [rows[i]];
        }
      }
      assert rows[0..] == rows;
      InboxNewestFirst(rows, userId, onlyUnread);
    }

    /** markNotificationsRead: an empty list answers [] without touching the
      table; otherwise every listed row is marked read, whoever owns it,
      and the marked rows are returned. */
    method MarkNotificationsRead(ids: seq<int>) returns (result: seq<Notification>)
      requires Valid()
      modifies this
      ensures Valid() && nextId == old(nextId)
      ensures |ids| == 0 ==> result == [] && rows == old(rows)
      ensures |ids| > 0 ==> rows == MarkRead(old(rows), ids) && result == Returned(rows, ids)
    {
      if |ids| == 0 {
        return [];
      }
      MarkReadIdempotent(rows, ids);
      rows := MarkRead(rows, ids);
      result := Returned(rows, ids);
    }
  }

  /** Every returned row is read and was listed; no other row changes. */
  lemma MarkedRowsAreRead(rows: seq<Notification>, ids: seq<int>)
    ensures forall n :: n in Returned(MarkRead(rows, ids), ids) ==> n.isRead && n.id in ids
    ensures forall i :: 0 <= i < |rows| && rows[i].id !in ids ==> MarkRead(rows, ids)[i] == rows[i]
  {
    var m := MarkRead(rows, ids);
    forall n | n in Returned(m, ids)
      ensures n.isRead
    {
      var k :| 0 <= k < |m| && m[k] == n;
    }
  }
}
