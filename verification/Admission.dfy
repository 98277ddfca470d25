/** Who gets into a room, and whose buffer a room message reaches, over whole runs of client requests
    and dispatched events. */
module Admission {
  import opened Common
  import opened Governance
  import opened HubState

  type RoomType = string

  const CHAT_MESSAGE_SENT := "chat.message.sent"

  /** An absent or unknown room type means a chat room. */
  function EffectiveRoomType(roomType: RoomType): RoomType {
    if roomType in {"chat", "order", "auction"} then roomType else "chat"
  }

  /** Events that go to all connections of one user, whatever rooms they are in. */
  predicate UserTargeted(eventType: string) {
    eventType in {"chat.room.created", "chat.room.updated", "notification.created", "notification.updated"}
  }

  /** What a connection, its peer or the outbox worker does next. Answers of the database are arbitrary:
      authorize and status are read for the asking user, statusOf afresh for each subscriber of a room,
      userStatus once for the addressed user. A route is None when the event's payload does not parse.
      PresenceEvent is the presence subscriber's fan-out to the user's own connections. A connection may
      still ask after it was unregistered or closed, for its read pump may be waiting for the gate. */
  datatype Step =
    | Connect(id: ConnId, user: UUID)
    | AskSubscribe(id: ConnId, room: RoomId, roomType: RoomType, withinRate: bool,
                   authorize: (UUID, RoomId, RoomType) -> bool, status: UUID -> Option<string>)
    | AskUnsubscribe(id: ConnId, room: RoomId)
    | Dispatch(eventType: string, route: Option<UUID>, payload: Payload,
               statusOf: ConnId -> Option<string>, userStatus: Option<string>)
    | PresenceEvent(user: UUID, payload: Payload)
    | Drain(id: ConnId)
    | Disconnect(id: ConnId)

  ghost predicate Possible(s: State, step: Step) {
    match step
    case Connect(id, _) => id !in s.objs
    case AskSubscribe(id, _, _, _, _, _) => id in s.objs
    case AskUnsubscribe(id, _) => id in s.objs
    case Dispatch(_, _, _, _, _) => true
    case PresenceEvent(_, _) => true
    case Drain(id) => id in s.objs && s.objs[id].send != []
    case Disconnect(id) => id in s.objs
  }

  /** The request is within its rate, and the gate lets this user into this room. */
  ghost predicate Admits(s: State, step: Step, id: ConnId, r: RoomId) {
    && step.AskSubscribe? && step.id == id && step.room == r && id in s.objs
    && step.withinRate
    && Evaluate(step.authorize(s.objs[id].user, r, EffectiveRoomType(step.roomType)),
                step.status(s.objs[id].user)) == Allowed
  }

  /** The hub operation the step comes to, if any. */
  ghost function Effect(s: State, step: Step): Option<HubState.Step>
    requires Possible(s, step)
  {
    match step
    case Connect(id, user) => Some(HubState.Register(id, user))
    case AskSubscribe(id, r, _, _, _, _) => if Admits(s, step, id, r) then Some(HubState.Subscribe(id, r)) else None
    case AskUnsubscribe(id, r) => Some(HubState.Unsubscribe(id, r))
    case Dispatch(eventType, route, payload, statusOf, userStatus) =>
      if route.None? then None
      else if UserTargeted(eventType) then Some(HubState.BroadcastUser(route.value, payload, IsAlive(userStatus)))
      else if eventType == CHAT_MESSAGE_SENT
      then Some(HubState.BroadcastRoom(route.value, payload, id => IsAlive(statusOf(id))))
      else None
    case PresenceEvent(user, payload) => Some(HubState.PresenceChanged(user, payload))
    case Drain(id) => Some(HubState.Pump(id))
    case Disconnect(id) => Some(HubState.Close(id))
  }

  ghost function Next(s: State, step: Step): Outcome
    requires Possible(s, step)
  {
    var effect := Effect(s, step);
    if effect.None? then Running(s) else HubState.Apply(s, effect.value)
  }

  /** The step takes the hub from s to t, without a crash. */
  ghost predicate Goes(s: State, step: Step, t: State) {
    Possible(s, step) && Next(s, step) == Running(t)
  }

  /** trace[j] is the hub before the j-th step of a run from the empty hub, which no step has brought down. */
  ghost predicate IsRun(trace: seq<State>, steps: seq<Step>) {
    && |trace| == |steps| + 1 && trace[0] == EMPTY
    && forall j :: 0 <= j < |steps| ==> Goes(trace[j], steps[j], trace[j + 1])
  }

  /** The connection asks to leave the room, or is unregistered. */
  ghost predicate Leaves(s: State, step: Step, t: State, id: ConnId, r: RoomId) {
    step == AskUnsubscribe(id, r) || (id in s.registered && id !in t.registered)
  }

  // ---------- One step ----------

  lemma GoesKeepsLinked(s: State, step: Step, t: State)
    requires Linked(s) && Goes(s, step, t)
    ensures Linked(t)
  {
    hide Linked, HubState.Apply;
    if Effect(s, step).Some? {
      ApplyKeepsLinked(s, Effect(s, step).value);
    }
  }

  lemma ApplyMembers(s: State, step: HubState.Step, id: ConnId, r: RoomId)
    requires Linked(s) && Enabled(s, step) && HubState.Apply(s, step).Running?
    ensures var t := HubState.Apply(s, step).state;
      Member(t, id, r) <==>
        step == HubState.Subscribe(id, r) ||
        (Member(s, id, r) && step != HubState.Unsubscribe(id, r) && !(id in s.registered && id !in t.registered))
  {
    hide BroadcastToRoom, BroadcastToUser, AfterUnregister, AfterPresence, AfterClose, AfterRegister, AfterSubscribe,
      Detach, AfterPump, Audience, ConnectionsOf, Linked, Sound, Member;
    match step
    case Register(x, user) => RegisterExact(s, x, user);
    case Unregister(x) => UnregisterAny(s, x);
    case Subscribe(x, q) =>
      SubscribeMembers(s, x, q);
      SubscribeObjs(s, x, q);
    case Unsubscribe(x, q) =>
      DetachMembers(s, x, {q});
      DetachObjs(s, x, {q});
    case BroadcastRoom(q, payload, verdict) => BroadcastExact(s, q, payload, verdict);
    case BroadcastUser(user, payload, pass) => BroadcastUserExact(s, user, payload, pass);
    case PresenceChanged(user, payload) => PresenceExact(s, user, payload);
    case Pump(x) => PumpExact(s, x);
    case Close(x) => CloseExact(s, x);
  }

  lemma GoesMembers(s: State, step: Step, t: State, id: ConnId, r: RoomId)
    requires Linked(s) && Goes(s, step, t)
    ensures Member(t, id, r) <==> Admits(s, step, id, r) || (Member(s, id, r) && !Leaves(s, step, t, id, r))
  {
    hide Linked, Member, Evaluate, HubState.Apply;
    if Effect(s, step).Some? {
      ApplyMembers(s, Effect(s, step).value, id, r);
    }
  }

  /** A connection belongs to the same user for as long as it exists; its buffer changes by broadcasts
      and by the write pump only. */
  lemma ApplyBuffers(s: State, step: HubState.Step, id: ConnId)
    requires Linked(s) && Enabled(s, step) && HubState.Apply(s, step).Running? && id in s.objs
    ensures var t := HubState.Apply(s, step).state;
      && id in t.objs && t.objs[id].user == s.objs[id].user
      && t.objs[id].send ==
           var space := |s.objs[id].send| < SEND_CAPACITY;
           match step
           case BroadcastRoom(r, payload, verdict) =>
             if Member(s, id, r) && verdict(id) && space then s.objs[id].send + [payload] else s.objs[id].send
           case BroadcastUser(user, payload, pass) =>
             if id in s.registered && s.objs[id].user == user && pass && space
             then s.objs[id].send + [payload] else s.objs[id].send
           case PresenceChanged(user, payload) =>
             if id in s.registered && s.objs[id].user == user && space
             then s.objs[id].send + [payload] else s.objs[id].send
           case Pump(x) => if x == id then s.objs[id].send[1..] else s.objs[id].send
           case _ => s.objs[id].send
  {
    hide BroadcastToRoom, BroadcastToUser, AfterUnregister, AfterPresence, AfterClose, AfterRegister, AfterSubscribe,
      Detach, AfterPump, Audience, ConnectionsOf, Linked, Sound, Member;
    match step
    case Register(x, user) => RegisterExact(s, x, user);
    case Unregister(x) => UnregisterAny(s, x);
    case Subscribe(x, q) =>
      SubscribeMembers(s, x, q);
      SubscribeObjs(s, x, q);
    case Unsubscribe(x, q) =>
      DetachMembers(s, x, {q});
      DetachObjs(s, x, {q});
    case BroadcastRoom(q, payload, verdict) => BroadcastExact(s, q, payload, verdict);
    case BroadcastUser(user, payload, pass) => BroadcastUserExact(s, user, payload, pass);
    case PresenceChanged(user, payload) => PresenceExact(s, user, payload);
    case Pump(x) => PumpExact(s, x);
    case Close(x) => CloseExact(s, x);
  }

  predicate Full(s: State, id: ConnId) {
    id in s.objs && |s.objs[id].send| == SEND_CAPACITY
  }

  /** The hub operation takes the connection off the registry, if it is on it. */
  ghost predicate TakesOff(s: State, step: HubState.Step, id: ConnId)
    requires id in s.objs
  {
    match step
    case Unregister(x) => x == id
    case Close(x) => x == id
    case BroadcastRoom(r, _, verdict) => Full(s, id) && Member(s, id, r) && verdict(id)
    case BroadcastUser(user, _, pass) => Full(s, id) && pass && s.objs[id].user == user
    case PresenceChanged(user, _) => Full(s, id) && s.objs[id].user == user
    case _ => false
  }

  /** The hub operation closes the connection. */
  ghost predicate Closes(s: State, step: HubState.Step, id: ConnId)
    requires id in s.objs
  {
    match step
    case Close(x) => x == id
    case PresenceChanged(user, _) => Full(s, id) && s.objs[id].user == user && id in s.registered
    case _ => false
  }

  /** The connection is still there, on the registry unless taken off, and closed if it was or is being closed. */
  ghost predicate Fares(s: State, t: State, id: ConnId, off: bool, closed: bool)
    requires id in s.objs
  {
    && id in t.objs
    && (id in t.registered <==> id in s.registered && !off)
    && (t.objs[id].closed <==> s.objs[id].closed || closed)
  }

  lemma RoomFares(s: State, r: RoomId, payload: Payload, verdict: ConnId -> bool, id: ConnId)
    requires Linked(s) && id in s.objs
    ensures Fares(s, BroadcastToRoom(s, r, payload, verdict), id, Full(s, id) && Member(s, id, r) && verdict(id), false)
  {
    hide BroadcastToRoom, Linked, Sound, Member;
    BroadcastExact(s, r, payload, verdict);
  }

  lemma UserFares(s: State, user: UUID, payload: Payload, pass: bool, id: ConnId)
    requires Linked(s) && id in s.objs
    ensures Fares(s, BroadcastToUser(s, user, payload, pass), id, Full(s, id) && pass && s.objs[id].user == user, false)
  {
    hide BroadcastToUser, Linked, Sound, Member;
    BroadcastUserExact(s, user, payload, pass);
  }

  lemma PresenceFares(s: State, user: UUID, payload: Payload, id: ConnId)
    requires Linked(s) && id in s.objs
    ensures var off := Full(s, id) && s.objs[id].user == user;
      Fares(s, AfterPresence(s, user, payload), id, off, off && id in s.registered)
  {
    hide AfterPresence, Linked, Sound, Member;
    PresenceExact(s, user, payload);
  }

  lemma OneFares(s: State, x: ConnId, id: ConnId)
    requires Linked(s) && id in s.objs && x in s.objs
    ensures Fares(s, AfterUnregister(s, x), id, x == id, false)
    ensures Fares(s, AfterClose(s, x), id, x == id, x == id)
  {
    hide AfterUnregister, AfterClose, Linked, Sound, Member;
    UnregisterAny(s, x);
    CloseExact(s, x);
  }

  lemma ApplyFares(s: State, step: HubState.Step, id: ConnId)
    requires Linked(s) && Enabled(s, step) && HubState.Apply(s, step).Running? && id in s.objs
    ensures Fares(s, HubState.Apply(s, step).state, id, TakesOff(s, step, id), Closes(s, step, id))
  {
    hide Linked, Full, Fares, BroadcastToRoom, BroadcastToUser, AfterPresence, AfterUnregister, AfterClose,
      SendsOnClosed, Member;
    match step
    case BroadcastRoom(r, payload, verdict) => RoomFares(s, r, payload, verdict, id);
    case BroadcastUser(user, payload, pass) => UserFares(s, user, payload, pass, id);
    case PresenceChanged(user, payload) => PresenceFares(s, user, payload, id);
    case Unregister(x) => OneFares(s, x, id);
    case Close(x) => OneFares(s, x, id);
    case Register(x, user) => UntouchedFares(s, HubState.Apply(s, step).state, id);
    case Subscribe(x, q) => UntouchedFares(s, HubState.Apply(s, step).state, id);
    case Unsubscribe(x, q) => UntouchedFares(s, HubState.Apply(s, step).state, id);
    case Pump(x) => UntouchedFares(s, HubState.Apply(s, step).state, id);
  }

  lemma ApplyKeys(s: State, step: HubState.Step)
    requires Linked(s) && Enabled(s, step) && HubState.Apply(s, step).Running?
    ensures var t := HubState.Apply(s, step).state;
      if step.Register? then
        t.objs == s.objs[step.id := ConnView(step.user, {}, [], false)] && t.registered == s.registered + {step.id}
      else t.objs.Keys == s.objs.Keys
  {
    hide Linked, BroadcastToRoom, BroadcastToUser, AfterPresence, AfterUnregister, AfterClose, SendsOnClosed, Member;
    match step
    case BroadcastRoom(r, payload, verdict) => BroadcastExact(s, r, payload, verdict);
    case BroadcastUser(user, payload, pass) => BroadcastUserExact(s, user, payload, pass);
    case PresenceChanged(user, payload) => PresenceExact(s, user, payload);
    case Unregister(x) => UnregisterAny(s, x);
    case Close(x) => CloseExact(s, x);
    case Register(_, _) =>
    case Subscribe(_, _) =>
    case Unsubscribe(_, _) =>
    case Pump(_) =>
  }

  lemma UntouchedFares(s: State, t: State, id: ConnId)
    requires id in s.objs && id in t.objs && t.objs[id].closed == s.objs[id].closed
    requires id in t.registered <==> id in s.registered
    ensures Fares(s, t, id, false, false)
  {
  }

  lemma GoesUser(s: State, step: Step, t: State, id: ConnId)
    requires Linked(s) && Goes(s, step, t) && id in s.objs
    ensures id in t.objs && t.objs[id].user == s.objs[id].user
  {
    hide Linked, HubState.Apply;
    if Effect(s, step).Some? {
      ApplyBuffers(s, Effect(s, step).value, id);
    }
  }

  // ---------- Whole runs ----------

  lemma {:induction false} RunLinked(trace: seq<State>, steps: seq<Step>, n: nat)
    requires IsRun(trace, steps) && n <= |steps|
    ensures Linked(trace[n])
  {
    hide Linked, Goes;
    if n == 0 {
      EmptyLinked();
    } else {
      RunLinked(trace, steps, n - 1);
      GoesKeepsLinked(trace[n - 1], steps[n - 1], trace[n]);
    }
  }

  lemma EmptyLinked()
    ensures Linked(EMPTY) && Sound(EMPTY)
  {
  }

  /** Step i let the connection into the room, and since then it has neither left nor been unregistered. */
  ghost predicate AdmittedAt(trace: seq<State>, steps: seq<Step>, i: nat, n: nat, id: ConnId, r: RoomId)
    requires IsRun(trace, steps) && i < n <= |steps|
  {
    && Admits(trace[i], steps[i], id, r)
    && forall j :: i < j < n ==> !Leaves(trace[j], steps[j], trace[j + 1], id, r)
  }

  /** MAIN: at every moment of every run a connection is in a room if and only if the gate let its user
      into that room at an earlier request on that connection, and since then the connection has neither
      left the room nor been unregistered. */
  lemma {:induction false} MembersWereAdmitted(trace: seq<State>, steps: seq<Step>, n: nat, id: ConnId, r: RoomId)
    requires IsRun(trace, steps) && n <= |steps|
    ensures Member(trace[n], id, r) <==> exists i: nat :: i < n && AdmittedAt(trace, steps, i, n, id, r)
  {
    hide Linked, Member, Goes, Admits, Leaves;
    if n == 0 {
      NobodyInside(id, r);
    } else {
      RunLinked(trace, steps, n - 1);
      GoesMembers(trace[n - 1], steps[n - 1], trace[n], id, r);
      MembersWereAdmitted(trace, steps, n - 1, id, r);
      if Member(trace[n], id, r) {
        if Admits(trace[n - 1], steps[n - 1], id, r) {
          assert AdmittedAt(trace, steps, n - 1, n, id, r);
        } else {
          var i: nat :| i < n - 1 && AdmittedAt(trace, steps, i, n - 1, id, r);
          assert AdmittedAt(trace, steps, i, n, id, r);
        }
      }
      if i: nat :| i < n && AdmittedAt(trace, steps, i, n, id, r) {
        if i < n - 1 {
          assert AdmittedAt(trace, steps, i, n - 1, id, r);
        }
      }
    }
  }

  lemma NobodyInside(id: ConnId, r: RoomId)
    ensures !Member(EMPTY, id, r)
  {
  }

  lemma {:induction false} UserStays(trace: seq<State>, steps: seq<Step>, i: nat, n: nat, id: ConnId)
    requires IsRun(trace, steps) && i <= n <= |steps| && id in trace[i].objs
    ensures id in trace[n].objs && trace[n].objs[id].user == trace[i].objs[id].user
  {
    hide Linked, Goes;
    if i < n {
      UserStays(trace, steps, i, n - 1, id);
      RunLinked(trace, steps, n - 1);
      GoesUser(trace[n - 1], steps[n - 1], trace[n], id);
    }
  }

  /** What a step may append to a buffer: a presence change of the connection's own user, an event for a live
      user's registered connection, or a room message for a member whose status, read for this broadcast, is
      live. */
  ghost predicate MayReceive(s: State, step: Step, id: ConnId)
    requires id in s.objs
  {
    && |s.objs[id].send| < SEND_CAPACITY
    && match step
       case PresenceEvent(user, _) => id in s.registered && s.objs[id].user == user
       case Dispatch(eventType, route, _, statusOf, userStatus) =>
         && route.Some?
         && (match eventType
             case "chat.room.created" | "chat.room.updated" | "notification.created" | "notification.updated" =>
               id in s.registered && s.objs[id].user == route.value && IsAlive(userStatus)
             case "chat.message.sent" => Member(s, id, route.value) && IsAlive(statusOf(id))
             case _ => false)
       case _ => false
  }

  /** Buffers change by delivery and by draining, and in no other way. */
  lemma GoesBuffers(s: State, step: Step, t: State, id: ConnId)
    requires Linked(s) && Goes(s, step, t) && id in s.objs
    ensures id in t.objs
    ensures t.objs[id].send ==
      if MayReceive(s, step, id) then s.objs[id].send + [step.payload]
      else if step == Drain(id) then s.objs[id].send[1..]
      else s.objs[id].send
  {
    hide Linked, HubState.Apply, IsAlive, Member, Admits;
    if Effect(s, step).Some? {
      ApplyBuffers(s, Effect(s, step).value, id);
    }
  }

  /** The step offers the connection a payload, whether or not there is space for it. */
  ghost predicate Offers(s: State, step: Step, id: ConnId)
    requires id in s.objs
  {
    MayReceive(s.(objs := s.objs[id := s.objs[id].(send := [])]), step, id)
  }

  /** MAIN: what a step does to a connection that exists. It leaves the registry when it disconnects or is offered a
      payload for which its buffer has no space; it is closed when it disconnects, or when a presence change takes it
      off the registry. */
  lemma GoesRegistry(s: State, step: Step, t: State, id: ConnId)
    requires Linked(s) && Goes(s, step, t) && id in s.objs
    ensures id in t.objs
    ensures id in t.registered <==>
      id in s.registered && step != Disconnect(id) && !(|s.objs[id].send| == SEND_CAPACITY && Offers(s, step, id))
    ensures t.objs[id].closed <==>
      s.objs[id].closed || step == Disconnect(id) || (step.PresenceEvent? && id in s.registered && id !in t.registered)
  {
    hide Linked, HubState.Apply, IsAlive, Admits;
    if Effect(s, step).Some? {
      ApplyFares(s, Effect(s, step).value, id);
    }
  }

  /** A connection appears by connecting, registered, open, in no room and with nothing waiting. */
  lemma GoesNew(s: State, step: Step, t: State, id: ConnId)
    requires Goes(s, step, t) && id !in s.objs && Linked(s)
    ensures id in t.objs <==> step.Connect? && step.id == id
    ensures id in t.objs ==> id in t.registered && t.objs[id] == ConnView(step.user, {}, [], false)
  {
    hide Linked, IsAlive, Admits, HubState.Apply;
    if Effect(s, step).Some? {
      ApplyKeys(s, Effect(s, step).value);
    }
  }

  predicate IsRoomMessage(step: Step) {
    step.Dispatch? && step.eventType == CHAT_MESSAGE_SENT && step.route.Some?
  }

  /** MAIN: in every run, a buffer grows only by the payload of an event, once; and a room message that does not
      crash goes to exactly those connections with space in their buffer that (1) are let into that room by the
      gate at an earlier request of the same user on the same connection, as an authorized and then live user,
      and have not left since, and (2) belong to a user found live at this very broadcast. */
  lemma RoomMessagesAreAdmitted(trace: seq<State>, steps: seq<Step>, j: nat, id: ConnId)
    requires IsRun(trace, steps) && j < |steps| && id in trace[j].objs
    ensures id in trace[j + 1].objs
    ensures var before, after := trace[j].objs[id], trace[j + 1].objs[id];
      && (after.send == before.send || (steps[j] == Drain(id) && before.send != [] && after.send == before.send[1..]) ||
          ((steps[j].Dispatch? || steps[j].PresenceEvent?) && after.send == before.send + [steps[j].payload]))
      && (IsRoomMessage(steps[j]) ==>
          (after.send == before.send + [steps[j].payload] <==>
            && |before.send| < SEND_CAPACITY
            && IsAlive(steps[j].statusOf(id))
            && exists i: nat :: i < j && AdmittedAt(trace, steps, i, j, id, steps[j].route.value)
                                && id in trace[i].objs && trace[i].objs[id].user == before.user))
  {
    hide Linked, Member, Admits, Leaves, IsAlive, Next;
    RunLinked(trace, steps, j);
    GoesBuffers(trace[j], steps[j], trace[j + 1], id);
    if IsRoomMessage(steps[j]) {
      var r := steps[j].route.value;
      assert !UserTargeted(steps[j].eventType);
      MembersWereAdmitted(trace, steps, j, id, r);
      forall i: nat | i < j && AdmittedAt(trace, steps, i, j, id, r)
        ensures id in trace[i].objs && trace[i].objs[id].user == trace[j].objs[id].user
      {
        AdmissionIff(trace[i], steps[i], id, r);
        UserStays(trace, steps, i, j, id);
      }
    }
  }

  /** MAIN: a connection is let into a room exactly at a request of its own for that room, within the rate, by a user
      who is authorized for the room under the type it asked for, or as a chat room if that type is absent or
      unknown, and whose status is readable and not a barred one. */
  lemma AdmissionIff(s: State, step: Step, id: ConnId, r: RoomId)
    ensures Admits(s, step, id, r) <==>
      && step.AskSubscribe? && step.id == id && step.room == r && id in s.objs && step.withinRate
      && var user := s.objs[id].user;
      && step.authorize(user, r, if step.roomType == "order" then "order" else
                                 if step.roomType == "auction" then "auction" else "chat")
      && step.status(user).Some?
      && step.status(user).value !in {"deleted", "removed", "suspended", "banned"}
  {
    if step.AskSubscribe? && id in s.objs {
      var user := s.objs[id].user;
      GateDecides(step.authorize(user, r, EffectiveRoomType(step.roomType)), step.status(user));
    }
  }

  lemma AdmissionGoes(s: State, step: Step, id: ConnId, r: RoomId)
    requires Admits(s, step, id, r)
    ensures Goes(s, step, AfterSubscribe(s, id, r))
  {
    hide AfterSubscribe;
  }

  lemma DisconnectGoes(s: State, id: ConnId)
    requires id in s.objs
    ensures Goes(s, Disconnect(id), AfterClose(s, id))
  {
    hide AfterClose;
  }

  /** MAIN: a connection that was unregistered as too slow still has its read pump, so the gate may let
      it in again; it is then a member that its own close does not remove, closed or not. */
  lemma SlowClientComesBack(s: State, step: Step, id: ConnId, r: RoomId)
    requires Linked(s) && id !in s.registered && Admits(s, step, id, r)
    ensures var t := AfterSubscribe(s, id, r);
      && id in t.objs
      && var u := AfterClose(t, id);
      && Goes(s, step, t) && Goes(t, Disconnect(id), u)
      && Member(t, id, r) && id !in t.registered
      && Member(u, id, r) && id in u.objs && u.objs[id].closed && id !in u.registered
  {
    AdmissionGoes(s, step, id, r);
    SubscribeKeepsLinked(s, id, r);
    SubscribeMembers(s, id, r);
    SubscribeObjs(s, id, r);
    hide AfterSubscribe, AfterClose, Goes, Linked, Member;
    DisconnectGoes(AfterSubscribe(s, id, r), id);
    CloseExact(AfterSubscribe(s, id, r), id);
  }

  // ---------- Closed connections and crashes ----------

  /** Who was registered when admitted and has not left since is registered still. */
  lemma {:induction false} StaysIn(trace: seq<State>, steps: seq<Step>, i: nat, n: nat, id: ConnId, r: RoomId)
    requires IsRun(trace, steps) && i < n <= |steps| && AdmittedAt(trace, steps, i, n, id, r)
    requires id in trace[i].registered
    ensures id in trace[n].registered
  {
    hide Linked, Goes, Admits;
    if i + 1 < n {
      StaysIn(trace, steps, i, n - 1, id, r);
      assert !Leaves(trace[n - 1], steps[n - 1], trace[n], id, r);
    } else {
      AdmissionRegisters(trace[i], steps[i], trace[n], id, r);
    }
  }

  lemma AdmissionRegisters(s: State, step: Step, t: State, id: ConnId, r: RoomId)
    requires Goes(s, step, t) && Admits(s, step, id, r)
    ensures t.registered == s.registered
  {
  }

  /** MAIN: a connection that is not registered any more, closed or merely slow, is in a room if and only if the
      gate let it in after it had left the registry, and it has not asked to leave since. */
  lemma UnregisteredMembersIff(trace: seq<State>, steps: seq<Step>, n: nat, id: ConnId, r: RoomId)
    requires IsRun(trace, steps) && n <= |steps| && id !in trace[n].registered
    ensures Member(trace[n], id, r) <==>
      exists i: nat :: i < n && AdmittedAt(trace, steps, i, n, id, r) && id !in trace[i].registered
  {
    hide Linked, Goes, Member, AdmittedAt;
    MembersWereAdmitted(trace, steps, n, id, r);
    forall i: nat | i < n && AdmittedAt(trace, steps, i, n, id, r) ensures id !in trace[i].registered {
      if id in trace[i].registered {
        StaysIn(trace, steps, i, n, id, r);
      }
    }
  }

  lemma ClosedIsUnregistered(s: State, id: ConnId)
    requires Linked(s) && id in s.objs && s.objs[id].closed
    ensures id !in s.registered
  {
  }

  /** MAIN: so for the closed ones: a closed connection is in a room if and only if the gate let it in after it had
      left the registry. */
  lemma ClosedMembersIff(trace: seq<State>, steps: seq<Step>, n: nat, id: ConnId, r: RoomId)
    requires IsRun(trace, steps) && n <= |steps| && id in trace[n].objs && trace[n].objs[id].closed
    ensures Member(trace[n], id, r) <==>
      exists i: nat :: i < n && AdmittedAt(trace, steps, i, n, id, r) && id !in trace[i].registered
  {
    RunLinked(trace, steps, n);
    hide Linked, Goes, Member, AdmittedAt;
    ClosedIsUnregistered(trace[n], id);
    UnregisteredMembersIff(trace, steps, n, id, r);
  }

  /** MAIN: after any run, a step brings the process down if and only if it is a room message for a room into which
      the gate let a connection that had left the registry, that has since been closed or was closed already, has
      not asked to leave, and whose user is found live at this broadcast. No other step ever does. */
  lemma CrashesExactly(trace: seq<State>, steps: seq<Step>, n: nat, step: Step)
    requires IsRun(trace, steps) && n <= |steps| && Possible(trace[n], step)
    ensures Next(trace[n], step).Crashed? <==>
      && IsRoomMessage(step)
      && exists id, i: nat :: (i < n && AdmittedAt(trace, steps, i, n, id, step.route.value) &&
                               id !in trace[i].registered && id in trace[n].objs && trace[n].objs[id].closed &&
                               IsAlive(step.statusOf(id)))
  {
    RunLinked(trace, steps, n);
    hide Linked, Goes, Member, AdmittedAt, IsAlive, HubState.Apply;
    var s := trace[n];
    if Effect(s, step).Some? {
      CrashesIff(s, Effect(s, step).value);
    }
    if IsRoomMessage(step) {
      assert !UserTargeted(step.eventType);
      var r := step.route.value;
      forall id | id in s.objs && s.objs[id].closed
        ensures Member(s, id, r) <==>
          exists i: nat :: i < n && AdmittedAt(trace, steps, i, n, id, r) && id !in trace[i].registered
      {
        ClosedMembersIff(trace, steps, n, id, r);
      }
    }
  }

  /** MAIN: three steps are enough for a closed member: a connection closes while its request waits for the gate,
      and the gate then lets it in; the next room message for a live user of that connection is the last. */
  lemma CrashReachable(id: ConnId, user: UUID, r: RoomId, ask: Step, message: Step) returns (trace: seq<State>)
    requires ask.AskSubscribe? && ask.id == id && ask.room == r && ask.withinRate
    requires Evaluate(ask.authorize(user, r, EffectiveRoomType(ask.roomType)), ask.status(user)) == Allowed
    requires IsRoomMessage(message) && message.route == Some(r) && IsAlive(message.statusOf(id))
    ensures IsRun(trace, [Connect(id, user), Disconnect(id), ask])
    ensures Member(trace[3], id, r) && id in trace[3].objs && trace[3].objs[id].closed
    ensures Possible(trace[3], message) && Next(trace[3], message).Crashed?
  {
    hide ConnectedAndClosed;
    var (connected, closed) := ConnectedAndClosed(id, user);
    var admitted := AfterSubscribe(closed, id, r);
    hide Evaluate, IsAlive, Linked;
    assert Admits(closed, ask, id, r);
    AdmissionGoes(closed, ask, id, r);
    SubscribeKeepsLinked(closed, id, r);
    SubscribeMembers(closed, id, r);
    SubscribeObjs(closed, id, r);
    hide AfterSubscribe, Goes, Admits, Member, Next, IsRun;
    MessageCrashes(admitted, message, id, r);
    ThreeSteps(connected, closed, admitted, Connect(id, user), Disconnect(id), ask);
    trace := [EMPTY, connected, closed, admitted];
  }

  ghost function ConnectedAndClosed(id: ConnId, user: UUID): (r: (State, State))
    ensures Goes(EMPTY, Connect(id, user), r.0) && Goes(r.0, Disconnect(id), r.1)
    ensures Linked(r.1) && id in r.1.objs && r.1.objs[id].user == user && r.1.objs[id].closed && id !in r.1.registered
  {
    EmptyLinked();
    RegisterKeepsLinked(EMPTY, id, user);
    var connected := AfterRegister(EMPTY, id, user);
    DisconnectGoes(connected, id);
    CloseExact(connected, id);
    (connected, AfterClose(connected, id))
  }

  lemma ThreeSteps(s: State, t: State, u: State, a: Step, b: Step, c: Step)
    requires Goes(EMPTY, a, s) && Goes(s, b, t) && Goes(t, c, u)
    ensures IsRun([EMPTY, s, t, u], [a, b, c])
  {
    hide Goes;
  }

  lemma MessageCrashes(s: State, message: Step, id: ConnId, r: RoomId)
    requires Linked(s) && id in s.objs && s.objs[id].closed && Member(s, id, r)
    requires IsRoomMessage(message) && message.route == Some(r) && IsAlive(message.statusOf(id))
    ensures Possible(s, message) && Next(s, message).Crashed?
  {
    hide IsAlive, Linked, Member, HubState.Apply;
    assert !UserTargeted(message.eventType);
    CrashesIff(s, Effect(s, message).value);
  }
}
