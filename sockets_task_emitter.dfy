/** `emitTaskEvent` of the utils folder: builds one timestamped event and
    sends it to the `tasks` room and then to each target user's room. */
module SocketsTaskEmitter {
  import opened Common
  import opened JsValues
  import opened Sockets

  /** `{ type, taskId, actor, payload, timestamp }` with `payload = {}`
      when it is left out (a null payload is kept). The clock reading is a
      parameter. */
  function TimedEvent(kind: JsValue, taskId: JsValue, actor: JsValue, payload: JsValue,
                      timestamp: string): (e: JsObject)
    ensures e.Keys == {"type", "taskId", "actor", "payload", "timestamp"}
    ensures e["payload"] == (if payload == Undefined then Obj(map[]) else payload)
    ensures e["timestamp"] == Str(timestamp)
    ensures e["type"] == kind && e["taskId"] == taskId && e["actor"] == actor
  {
    map["type" := kind, "taskId" := taskId, "actor" := actor,
        "payload" := if payload == Undefined then Obj(map[]) else payload,
        "timestamp" := Str(timestamp)]
  }

  /** One call: the event is built once and the same object goes to every
      room; failures are caught and logged. */
  method EmitTaskEvent(hub: SocketHub, kind: JsValue, taskId: JsValue, actor: JsValue,
                       payload: JsValue, targets: TargetUsers, now: string)
    modifies hub
    ensures hub.initialized == old(hub.initialized)
    ensures hub.sent == old(hub.sent) +
      Emitted(old(hub.initialized), "tasks", TimedEvent(kind, taskId, actor, payload, now), targets)
  {
    if !hub.initialized {
      // getIO() throws "Socket.io not initialized!"; caught and logged
      return;
    }
    var event := TimedEvent(kind, taskId, actor, payload, now);
    hub.sent := hub.sent + [Emission("tasks", "task:event", event)];
    match targets {
      case Omitted =>
      case NullTargets =>
        // null.forEach throws a TypeError; caught and logged
      case Users(ids) =>
        EmitToUsers(hub, event, ids);
        BroadcastThenUsers(old(hub.sent), "tasks", event, ids);
    }
  }

  /** Every emission of one call carries the same event, and with no
      payload that event's payload is the empty object. */
  lemma OneEventEverywhere(kind: JsValue, taskId: JsValue, actor: JsValue, ids: seq<int>, now: string)
    ensures var es := Emitted(true, "tasks", TimedEvent(kind, taskId, actor, Undefined, now), Users(ids));
            forall i :: 0 <= i < |es| ==> es[i].data == es[0].data && es[i].data["payload"] == Obj(map[])
  {
    var es := Emitted(true, "tasks", TimedEvent(kind, taskId, actor, Undefined, now), Users(ids));
    forall i | 0 <= i < |es|
      ensures es[i].data == es[0].data
    {
      if i > 0 {
        assert es[i] == es[1..][i - 1];
      }
    }
  }

  /** One call on a running server reaches the tasks room exactly once and
      each target user as often as it is listed. */
  lemma TasksOnceEachUserPerListing(kind: JsValue, taskId: JsValue, actor: JsValue, payload: JsValue,
                                    ids: seq<int>, u: int, now: string)
    ensures var es := Emitted(true, "tasks", TimedEvent(kind, taskId, actor, payload, now), Users(ids));
            CountTo(es, "tasks") == 1 && CountTo(es, UserRoom(u)) == multiset(ids)[u]
  {
    BroadcastRoomsAreNotUserRooms();
    FanoutCounts("tasks", TimedEvent(kind, taskId, actor, payload, now), ids, u);
  }
}
