/** `emitTaskEvent` of the sockets folder: sends `task:event` to the
    `admins` room and then to each target user's room. */
module TaskEmitter {
  import opened Common
  import opened JsValues
  import opened Sockets

  /** The object literal built for each emission: `{ type, taskId, actor,
      payload }`, payload as given (it has no default here). */
  function TaskEvent(kind: JsValue, taskId: JsValue, actor: JsValue, payload: JsValue): (e: JsObject)
    ensures e.Keys == {"type", "taskId", "actor", "payload"}
    ensures e["payload"] == payload
    ensures e["type"] == kind && e["taskId"] == taskId && e["actor"] == actor
  {
    map["type" := kind, "taskId" := taskId, "actor" := actor, "payload" := payload]
  }

  /** One call: every failure (an uninitialised server, a null target
      list) is caught and logged, so the caller always returns normally and
      only the emissions made before the failure are recorded. */
  method EmitTaskEvent(hub: SocketHub, kind: JsValue, taskId: JsValue, actor: JsValue,
                       payload: JsValue, targets: TargetUsers)
    modifies hub
    ensures hub.initialized == old(hub.initialized)
    ensures hub.sent == old(hub.sent) +
      Emitted(old(hub.initialized), "admins", TaskEvent(kind, taskId, actor, payload), targets)
  {
    if !hub.initialized {
      // getIO() throws "Socket.io not initialized!"; caught and logged
      return;
    }
    // each emit builds its own literal; all of them are equal
    var event := TaskEvent(kind, taskId, actor, payload);
    hub.sent := hub.sent + [Emission("admins", "task:event", event)];
    match targets {
      case Omitted =>
      case NullTargets =>
        // null.forEach throws a TypeError; caught and logged
      case Users(ids) =>
        EmitToUsers(hub, event, ids);
        BroadcastThenUsers(old(hub.sent), "admins", event, ids);
    }
  }

  /** One call on a running server reaches the admins room exactly once
      and each target user as often as it is listed. */
  lemma AdminsOnceEachUserPerListing(kind: JsValue, taskId: JsValue, actor: JsValue, payload: JsValue,
                                     ids: seq<int>, u: int)
    ensures var es := Emitted(true, "admins", TaskEvent(kind, taskId, actor, payload), Users(ids));
            CountTo(es, "admins") == 1 && CountTo(es, UserRoom(u)) == multiset(ids)[u]
  {
    BroadcastRoomsAreNotUserRooms();
    FanoutCounts("admins", TaskEvent(kind, taskId, actor, payload), ids, u);
  }
}
