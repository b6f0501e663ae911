/** The live-event side of the API as the task emitters see it: a socket
    server that may or may not have been initialised, the rooms it emits
    to, and the emissions it has made so far. */
module Sockets {
  import opened Common
  import opened JsValues

  /** One `io.to(room).emit(name, data)`. */
  datatype Emission = Emission(room: string, name: string, data: JsObject)

  /** The `targetUsers` argument: left out (so the default `[]` applies),
      passed as null (the default does not apply, and `forEach` on it
      throws), or a list of user ids. */
  datatype TargetUsers = Omitted | NullTargets | Users(ids: seq<int>)

  /** The socket server: `getIO()` throws until it is initialised; every
      emission is recorded, in order. */
  class SocketHub {
    var initialized: bool
    var sent: seq<Emission>

    constructor (initialized: bool)
      ensures this.initialized == initialized && sent == []
    {
      this.initialized := initialized;
      sent := [];
    }
  }

  /** The private room a user joins on `join`: `user_${userId}`. */
  function UserRoom(userId: int): (room: string)
    ensures StartsWith(room, "user_")
  {
    "user_" + IntToString(userId)
  }

  /** Distinct users have distinct rooms. */
  lemma UserRoomInjective(a: int, b: int)
    ensures UserRoom(a) == UserRoom(b) <==> a == b
  {
    if UserRoom(a) == UserRoom(b) {
      assert UserRoom(a)[5..] == IntToString(a);
      assert UserRoom(b)[5..] == IntToString(b);
      IntToStringInjective(a, b);
    }
  }

  /** The emissions to the users' rooms, one per listed id, in list order,
      all carrying the same event. */
  function ToUsers(event: JsObject, ids: seq<int>): (r: seq<Emission>)
    ensures |r| == |ids|
    ensures forall i :: 0 <= i < |ids| ==> r[i] == Emission(UserRoom(ids[i]), "task:event", event)
  {
    seq(|ids|, i requires 0 <= i < |ids| => Emission(UserRoom(ids[i]), "task:event", event))
  }

  /** The fan-out of one event: first to the broadcast room, then to each
      listed user. */
  function Fanout(first: string, event: JsObject, ids: seq<int>): (r: seq<Emission>)
    ensures |r| == 1 + |ids|
    ensures r[0] == Emission(first, "task:event", event)
    ensures r[1..] == ToUsers(event, ids)
  {
    [Emission(first, "task:event", event)] + ToUsers(event, ids)
  }

  lemma ToUsersSnoc(event: JsObject, ids: seq<int>, id: int)
    ensures ToUsers(event, ids + [id]) == ToUsers(event, ids) + [Emission(UserRoom(id), "task:event", event)]
  {
  }

  /** `targetUsers.forEach(userId => io.to(`user_${userId}`).emit('task:event', event))`:
      one emission per listed user, in list order. */
  method EmitToUsers(hub: SocketHub, event: JsObject, ids: seq<int>)
    modifies hub
    ensures hub.initialized == old(hub.initialized)
    ensures hub.sent == old(hub.sent) + ToUsers(event, ids)
  {
    var i := 0;
    while i < |ids|
      invariant 0 <= i <= |ids|
      invariant hub.initialized == old(hub.initialized)
      invariant hub.sent == old(hub.sent) + ToUsers(event, ids[..i])
    {
      assert ids[..i + 1] == ids[..i] + [ids[i]];
      ToUsersSnoc(event, ids[..i], ids[i]);
      hub.sent := hub.sent + [Emission(UserRoom(ids[i]), "task:event", event)];
      i := i + 1;
    }
    assert ids[..i] == ids;
  }

  /** The broadcast followed by the users' emissions is the fan-out. */
  lemma BroadcastThenUsers(prefix: seq<Emission>, first: string, event: JsObject, ids: seq<int>)
    ensures prefix + [Emission(first, "task:event", event)] + ToUsers(event, ids)
         == prefix + Fanout(first, event, ids)
  {
  }

  /** Neither broadcast room is a user room. */
  lemma BroadcastRoomsAreNotUserRooms()
    ensures !StartsWith("admins", "user_") && !StartsWith("tasks", "user_")
  {
    assert "admins"[..5][0] == 'a';
    assert "tasks"[..5][0] == 't';
  }

  /** What one call emits: nothing when the server is not initialised (the
      error from `getIO` is caught), the broadcast alone when the target
      list is left out or null (in the latter case the `forEach` error is
      caught after the broadcast), and the full fan-out otherwise. */
  function Emitted(initialized: bool, first: string, event: JsObject, targets: TargetUsers): (r: seq<Emission>)
    ensures !initialized ==> r == []
    ensures initialized ==> |r| >= 1 && r[0] == Emission(first, "task:event", event)
    ensures initialized && targets.Users? ==> |r| == 1 + |targets.ids|
    ensures initialized && targets.Users? ==> r[1..] == ToUsers(event, targets.ids)
    ensures initialized && !targets.Users? ==> |r| == 1
  {
    if !initialized then []
    else match targets
      case Users(ids) => Fanout(first, event, ids)
      case _ => [Emission(first, "task:event", event)]
  }

  /** How many of the emissions went to a room. */
  function CountTo(es: seq<Emission>, room: string): (n: nat)
    ensures n <= |es|
  {
    if es == [] then 0
    else CountTo(es[..|es| - 1], room) + (if es[|es| - 1].room == room then 1 else 0)
  }

  /** Each user receives the event exactly as many times as its id is
      listed: once for a list without repeats, never when it is not listed. */
  lemma {:induction false} ToUsersCount(event: JsObject, ids: seq<int>, u: int)
    ensures CountTo(ToUsers(event, ids), UserRoom(u)) == multiset(ids)[u]
    decreases |ids|
  {
    if ids != [] {
      var init := ids[..|ids| - 1];
      var last := ids[|ids| - 1];
      assert ids == init + [last];
      ToUsersCount(event, init, u);
      ToUsersSnoc(event, init, last);
      CountLast(ToUsers(event, init), Emission(UserRoom(last), "task:event", event), UserRoom(u));
      UserRoomInjective(last, u);
      MultisetLast(ids, u);
    }
  }

  /** Counting after one more emission. */
  lemma CountLast(es: seq<Emission>, e: Emission, room: string)
    ensures CountTo(es + [e], room) == CountTo(es, room) + (if e.room == room then 1 else 0)
  {
    assert (es + [e])[..|es|] == es;
  }

  lemma MultisetLast(ids: seq<int>, u: int)
    requires ids != []
    ensures multiset(ids)[u] == multiset(ids[..|ids| - 1])[u] + (if ids[|ids| - 1] == u then 1 else 0)
  {
    assert ids == ids[..|ids| - 1] + [ids[|ids| - 1]];
  }

  lemma {:induction false} CountToAppend(a: seq<Emission>, b: seq<Emission>, room: string)
    ensures CountTo(a + b, room) == CountTo(a, room) + CountTo(b, room)
    decreases |b|
  {
    if b == [] {
      assert a + b == a;
    } else {
      assert (a + b)[..|a + b| - 1] == a + b[..|b| - 1];
      CountToAppend(a, b[..|b| - 1], room);
    }
  }

  /** A fan-out reaches the broadcast room once (when it is not a user
      room) and each user as often as it is listed. */
  lemma FanoutCounts(first: string, event: JsObject, ids: seq<int>, u: int)
    requires !StartsWith(first, "user_")
    ensures CountTo(Fanout(first, event, ids), first) == 1
    ensures CountTo(Fanout(first, event, ids), UserRoom(u)) == multiset(ids)[u]
  {
    var head := [Emission(first, "task:event", event)];
    var users := ToUsers(event, ids);
    CountToAppend(head, users, first);
    CountToAppend(head, users, UserRoom(u));
    assert head[..0] == [];
    ToUsersCount(event, ids, u);
    assert CountTo(users, first) == 0 by {
      NoUserEmissionTo(event, ids, first);
    }
  }

  lemma {:induction false} NoUserEmissionTo(event: JsObject, ids: seq<int>, room: string)
    requires !StartsWith(room, "user_")
    ensures CountTo(ToUsers(event, ids), room) == 0
    decreases |ids|
  {
    if ids != [] {
      var r := ToUsers(event, ids);
      assert r[..|r| - 1] == ToUsers(event, ids[..|ids| - 1]);
      NoUserEmissionTo(event, ids[..|ids| - 1], room);
    }
  }
}
