/** The WebSocket hub as a value: what its maps, its gauges and its connections' buffers hold, and what
    each operation makes of them. */
module HubState {
  import opened Common

  type ConnId = string
  type RoomId = UUID
  type Payload = string

  /** Capacity of a connection's Send channel. */
  const SEND_CAPACITY := 256

  /** closed once the Send channel is closed: a send on it would panic and bring the process down. */
  datatype ConnView = ConnView(user: UUID, rooms: set<RoomId>, send: seq<Payload>, closed: bool)

  /** objs holds every connection ever created, registered or not: an unregistered one lives on in its
      pumps. */
  datatype State = State(
    objs: map<ConnId, ConnView>,
    registered: set<ConnId>,
    rooms: map<RoomId, set<ConnId>>,
    connGauge: int,
    roomGauge: int)

  const EMPTY := State(map[], {}, map[], 0, 0)

  predicate Member(s: State, id: ConnId, r: RoomId) {
    r in s.rooms && id in s.rooms[r]
  }

  /** The two indexes agree, no room is empty, the gauges are the map sizes, no buffer overflows, and what is
      registered is not closed. */
  ghost predicate Linked(s: State) {
    && s.registered <= s.objs.Keys
    && (forall r :: r in s.rooms ==> s.rooms[r] != {})
    && (forall r, id :: Member(s, id, r) ==> id in s.objs)
    && (forall id, r :: id in s.objs ==> (r in s.objs[id].rooms <==> Member(s, id, r)))
    && (forall id :: id in s.objs ==> |s.objs[id].send| <= SEND_CAPACITY)
    && (forall id :: id in s.registered ==> !s.objs[id].closed)
    && s.connGauge == |s.registered|
    && s.roomGauge == |s.rooms|
  }

  /** Moreover every room member is registered. */
  ghost predicate Sound(s: State) {
    Linked(s) && forall r, id :: Member(s, id, r) ==> id in s.registered
  }

  /** The room index after some connections have left every room. */
  function Without(rooms: map<RoomId, set<ConnId>>, ids: set<ConnId>): map<RoomId, set<ConnId>> {
    map r | r in rooms && rooms[r] - ids != {} :: rooms[r] - ids
  }

  lemma WithoutMembers(rooms: map<RoomId, set<ConnId>>, ids: set<ConnId>, id: ConnId, r: RoomId)
    ensures r in Without(rooms, ids) && id in Without(rooms, ids)[r] <==> r in rooms && id in rooms[r] && id !in ids
  {
    if r in rooms && id in rooms[r] && id !in ids {
      assert id in rooms[r] - ids;
    }
  }

  function AfterRegister(s: State, id: ConnId, user: UUID): State {
    s.(objs := s.objs[id := ConnView(user, {}, [], false)], registered := s.registered + {id},
       connGauge := s.connGauge + 1)
  }

  function AfterSubscribe(s: State, id: ConnId, r: RoomId): State
    requires id in s.objs
  {
    var rooms := s.rooms[r := (if r in s.rooms then s.rooms[r] else {}) + {id}];
    s.(objs := s.objs[id := s.objs[id].(rooms := s.objs[id].rooms + {r})],
       rooms := rooms,
       roomGauge := if r in s.rooms then s.roomGauge else |rooms|)
  }

  /** The room index after one connection has left some rooms. */
  function Detached(rooms: map<RoomId, set<ConnId>>, id: ConnId, rs: set<RoomId>): map<RoomId, set<ConnId>> {
    map r | r in rooms && (r in rs ==> rooms[r] - {id} != {}) ::
      if r in rs then rooms[r] - {id} else rooms[r]
  }

  /** The connection leaves some of its rooms. */
  function Detach(s: State, id: ConnId, rs: set<RoomId>): State
    requires id in s.objs
  {
    var rooms := Detached(s.rooms, id, rs);
    s.(objs := s.objs[id := s.objs[id].(rooms := s.objs[id].rooms - rs)], rooms := rooms, roomGauge := |rooms|)
  }

  function AfterUnregister(s: State, id: ConnId): State {
    if id !in s.registered || id !in s.objs then s else
    var rooms := Without(s.rooms, {id});
    State(s.objs[id := s.objs[id].(rooms := {})], s.registered - {id}, rooms, s.connGauge - 1, |rooms|)
  }

  /** Some connections have been closed. */
  function Closed(s: State, ids: set<ConnId>): State {
    s.(objs := map id | id in s.objs :: if id in ids then s.objs[id].(closed := true) else s.objs[id])
  }

  /** Close: leave the hub, then close the channel. */
  function AfterClose(s: State, id: ConnId): State
    requires id in s.objs
  {
    Closed(AfterUnregister(s, id), {id})
  }

  predicate HasSpace(s: State, id: ConnId)
    requires id in s.objs
  {
    |s.objs[id].send| < SEND_CAPACITY
  }

  /** A non-blocking send: append, or disconnect the slow client. */
  function Offer(s: State, id: ConnId, payload: Payload): State
    requires id in s.objs
  {
    if HasSpace(s, id)
    then s.(objs := s.objs[id := s.objs[id].(send := s.objs[id].send + [payload])])
    else AfterUnregister(s, id)
  }

  /** The registered connections among ids whose buffer is full. */
  function Slow(s: State, ids: set<ConnId>): set<ConnId>
    requires ids <= s.objs.Keys
  {
    set id | id in ids && id in s.registered && !HasSpace(s, id)
  }

  /** All of ids have been offered the payload. */
  function OfferAll(s: State, ids: set<ConnId>, payload: Payload): State
    requires ids <= s.objs.Keys
  {
    var slow := Slow(s, ids);
    var rooms := Without(s.rooms, slow);
    State(
      map id | id in s.objs ::
        if id in slow then s.objs[id].(rooms := {})
        else if id in ids && HasSpace(s, id) then s.objs[id].(send := s.objs[id].send + [payload])
        else s.objs[id],
      s.registered - slow, rooms, s.connGauge - |slow|, |rooms|)
  }

  /** Who a room broadcast is offered to, given the filter's fresh verdict for each connection. */
  function Audience(s: State, r: RoomId, verdict: ConnId -> bool): set<ConnId> {
    if r in s.rooms then set id | id in s.rooms[r] && id in s.objs && verdict(id) else {}
  }

  /** What a room broadcast makes of the hub, if it sends on no closed channel. */
  function BroadcastToRoom(s: State, r: RoomId, payload: Payload, verdict: ConnId -> bool): State {
    OfferAll(s, Audience(s, r, verdict), payload)
  }

  function ConnectionsOf(s: State, user: UUID): set<ConnId> {
    set id | id in s.registered && id in s.objs && s.objs[id].user == user
  }

  function BroadcastToUser(s: State, user: UUID, payload: Payload, pass: bool): State {
    if pass then OfferAll(s, ConnectionsOf(s, user), payload) else s
  }

  /** The presence subscriber's fan-out to a user's own connections: a slow client is closed. */
  function AfterPresence(s: State, user: UUID, payload: Payload): State {
    var t := BroadcastToUser(s, user, payload, true);
    Closed(t, s.registered - t.registered)
  }

  /** One of the connections that are offered a payload is closed. */
  predicate SendsOnClosed(s: State, ids: set<ConnId>) {
    exists id :: id in ids && id in s.objs && s.objs[id].closed
  }

  /** The write pump takes the oldest frame off the buffer. */
  function AfterPump(s: State, id: ConnId): State
    requires id in s.objs && s.objs[id].send != []
  {
    s.(objs := s.objs[id := s.objs[id].(send := s.objs[id].send[1..])])
  }

  // ---------- Unregistering and offering ----------

  /** MAIN: unregistering takes the connection out of the registry and out of every room, changes no
      other connection and no other membership, keeps the index, and repeating it changes nothing. */
  lemma UnregisterExact(s: State, id: ConnId)
    requires Linked(s) && id in s.registered
    ensures var s' := AfterUnregister(s, id);
      && Linked(s')
      && s'.registered == s.registered - {id}
      && (forall r :: !Member(s', id, r))
      && (forall r, x :: x != id ==> (Member(s', x, r) <==> Member(s, x, r)))
      && s'.objs == s.objs[id := s.objs[id].(rooms := {})]
      && AfterUnregister(s', id) == s'
      && (Sound(s) ==> Sound(s'))
  {
    var s' := AfterUnregister(s, id);
    forall r, x ensures Member(s', x, r) <==> Member(s, x, r) && x != id {
      WithoutMembers(s.rooms, {id}, x, r);
    }
  }

  lemma OfferAllMembers(s: State, ids: set<ConnId>, payload: Payload, id: ConnId, r: RoomId)
    requires ids <= s.objs.Keys
    ensures Member(OfferAll(s, ids, payload), id, r) <==> Member(s, id, r) && id !in Slow(s, ids)
  {
    WithoutMembers(s.rooms, Slow(s, ids), id, r);
  }

  lemma OfferAllRooms(s: State, ids: set<ConnId>, payload: Payload)
    requires Linked(s) && ids <= s.objs.Keys
    ensures var s' := OfferAll(s, ids, payload);
      && (forall r :: r in s'.rooms ==> s'.rooms[r] != {})
      && (forall id, r :: id in s'.objs ==> (r in s'.objs[id].rooms <==> Member(s', id, r)))
      && (forall id, r :: Member(s', id, r) ==> id in s'.objs)
      && (forall id, r :: Member(s', id, r) && id in s.registered ==> id in s'.registered)
  {
    var s' := OfferAll(s, ids, payload);
    forall id, r ensures Member(s', id, r) <==> Member(s, id, r) && id !in Slow(s, ids) {
      OfferAllMembers(s, ids, payload, id, r);
    }
  }

  lemma OfferAllKeepsLinked(s: State, ids: set<ConnId>, payload: Payload)
    requires Linked(s) && ids <= s.objs.Keys
    ensures Linked(OfferAll(s, ids, payload))
    ensures Sound(s) ==> Sound(OfferAll(s, ids, payload))
  {
    var s' := OfferAll(s, ids, payload);
    var slow := Slow(s, ids);
    OfferAllRooms(s, ids, payload);
    if Sound(s) {
      forall id, r | Member(s', id, r) ensures id in s.registered {
        OfferAllMembers(s, ids, payload, id, r);
      }
    }
    hide Member, Without;
    assert slow <= s.registered;
    assert |s.registered - slow| == |s.registered| - |slow|;
  }

  lemma WithoutTwice(rooms: map<RoomId, set<ConnId>>, a: set<ConnId>, b: set<ConnId>)
    ensures Without(Without(rooms, a), b) == Without(rooms, a + b)
  {
    forall r | r in rooms ensures rooms[r] - a - b == rooms[r] - (a + b) {}
  }

  lemma OfferOneSlow(s: State, ids: set<ConnId>, id: ConnId, payload: Payload)
    requires ids <= s.objs.Keys && id in s.objs && id !in ids
    requires !HasSpace(s, id) && id in s.registered
    ensures AfterUnregister(OfferAll(s, ids, payload), id) == OfferAll(s, ids + {id}, payload)
  {
    hide Without;
    var t, u := OfferAll(s, ids, payload), OfferAll(s, ids + {id}, payload);
    assert Slow(s, ids + {id}) == Slow(s, ids) + {id};
    WithoutTwice(s.rooms, Slow(s, ids), {id});
    assert t.objs[id] == s.objs[id] && id in t.registered;
    assert AfterUnregister(t, id).objs == u.objs;
    assert AfterUnregister(t, id).registered == u.registered;
  }

  lemma OfferOneOther(s: State, ids: set<ConnId>, id: ConnId, payload: Payload)
    requires ids <= s.objs.Keys && id in s.objs && id !in ids
    requires HasSpace(s, id) || id !in s.registered
    ensures Offer(OfferAll(s, ids, payload), id, payload) == OfferAll(s, ids + {id}, payload)
  {
    hide Without;
    var t, u := OfferAll(s, ids, payload), OfferAll(s, ids + {id}, payload);
    assert Slow(s, ids + {id}) == Slow(s, ids);
    assert t.objs[id] == s.objs[id];
    assert Offer(t, id, payload).objs == u.objs;
  }

  /** Offering to one connection after another, in whatever order, comes to offering to all of them. */
  lemma OfferOneMore(s: State, ids: set<ConnId>, id: ConnId, payload: Payload)
    requires ids <= s.objs.Keys && id in s.objs && id !in ids
    ensures Offer(OfferAll(s, ids, payload), id, payload) == OfferAll(s, ids + {id}, payload)
  {
    if !HasSpace(s, id) && id in s.registered {
      OfferOneSlow(s, ids, id, payload);
      assert OfferAll(s, ids, payload).objs[id] == s.objs[id];
    } else {
      OfferOneOther(s, ids, id, payload);
    }
  }

  lemma WithoutNobody(rooms: map<RoomId, set<ConnId>>)
    requires forall r :: r in rooms ==> rooms[r] != {}
    ensures Without(rooms, {}) == rooms
  {
    forall r | r in rooms ensures rooms[r] - {} == rooms[r] {}
  }

  lemma OfferNone(s: State, payload: Payload)
    requires Linked(s)
    ensures OfferAll(s, {}, payload) == s
  {
    WithoutNobody(s.rooms);
    assert s.roomGauge == |s.rooms|;
    hide Linked, Member, Without;
    assert Slow(s, {}) == {};
    assert OfferAll(s, {}, payload).objs == s.objs;
    assert s.registered - {} == s.registered;
  }

  /** MAIN: a room broadcast that does not crash appends the payload once to exactly the members that pass the
      filter and have room in their buffer, unregisters from everything exactly the registered members that pass and
      are full, and changes no other buffer, registration or membership. */
  lemma BroadcastExact(s: State, r: RoomId, payload: Payload, verdict: ConnId -> bool)
    requires Linked(s)
    ensures var s' := BroadcastToRoom(s, r, payload, verdict);
      && Linked(s') && (Sound(s) ==> Sound(s'))
      && s'.objs.Keys == s.objs.Keys
      && (forall id :: id in s.objs ==> s'.objs[id].user == s.objs[id].user && s'.objs[id].closed == s.objs[id].closed)
      && (forall id :: id in s.objs ==>
            s'.objs[id].send == if Member(s, id, r) && verdict(id) && |s.objs[id].send| < SEND_CAPACITY
                                then s.objs[id].send + [payload] else s.objs[id].send)
      && (forall id :: id in s.registered ==>
            (id !in s'.registered <==> Member(s, id, r) && verdict(id) && |s.objs[id].send| == SEND_CAPACITY))
      && s'.registered <= s.registered
      && (forall id, q :: Member(s', id, q) <==> Member(s, id, q) && !(id in s.registered && id !in s'.registered))
  {
    assert forall id :: Member(s, id, r) ==> id in s.objs;
    var ids := Audience(s, r, verdict);
    OfferAllKeepsLinked(s, ids, payload);
    hide Linked, OfferAll;
    OfferAllExact(s, ids, payload);
    assert forall id :: id in ids <==> Member(s, id, r) && verdict(id);
  }

  lemma OfferAllExact(s: State, ids: set<ConnId>, payload: Payload)
    requires Linked(s) && ids <= s.objs.Keys
    ensures var s' := OfferAll(s, ids, payload);
      && s'.objs.Keys == s.objs.Keys
      && (forall id :: id in s.objs ==> s'.objs[id].user == s.objs[id].user && s'.objs[id].closed == s.objs[id].closed)
      && (forall id :: id in s.objs ==>
            s'.objs[id].send == if id in ids && |s.objs[id].send| < SEND_CAPACITY
                                then s.objs[id].send + [payload] else s.objs[id].send)
      && (forall id :: id in s.registered ==>
            (id !in s'.registered <==> id in ids && |s.objs[id].send| == SEND_CAPACITY))
      && s'.registered <= s.registered
      && (forall id, q :: Member(s', id, q) <==> Member(s, id, q) && !(id in s.registered && id !in s'.registered))
  {
    forall id, q
      ensures Member(OfferAll(s, ids, payload), id, q) <==> Member(s, id, q) && id !in Slow(s, ids)
    {
      OfferAllMembers(s, ids, payload, id, q);
    }
  }

  /** MAIN: a broadcast to a user, likewise, for all of that user's registered connections, if the filter passes. */
  lemma BroadcastUserExact(s: State, user: UUID, payload: Payload, pass: bool)
    requires Linked(s)
    ensures var s' := BroadcastToUser(s, user, payload, pass);
      && Linked(s') && (Sound(s) ==> Sound(s'))
      && s'.objs.Keys == s.objs.Keys
      && (forall id :: id in s.objs ==> s'.objs[id].user == s.objs[id].user && s'.objs[id].closed == s.objs[id].closed)
      && (forall id :: id in s.objs ==>
            s'.objs[id].send ==
              if pass && id in s.registered && s.objs[id].user == user && |s.objs[id].send| < SEND_CAPACITY
              then s.objs[id].send + [payload] else s.objs[id].send)
      && (forall id :: id in s.registered ==>
            (id !in s'.registered <==> pass && s.objs[id].user == user && |s.objs[id].send| == SEND_CAPACITY))
      && s'.registered <= s.registered
      && (forall id, q :: Member(s', id, q) <==> Member(s, id, q) && !(id in s.registered && id !in s'.registered))
  {
    if pass {
      var ids := ConnectionsOf(s, user);
      OfferAllKeepsLinked(s, ids, payload);
      hide OfferAll;
      OfferAllExact(s, ids, payload);
    }
  }

  /** Closing connections that are not registered changes nothing else. */
  lemma ClosingExact(s: State, ids: set<ConnId>)
    requires Linked(s) && ids !! s.registered
    ensures var s' := Closed(s, ids);
      && Linked(s') && (Sound(s) ==> Sound(s'))
      && s'.registered == s.registered && s'.rooms == s.rooms && s'.objs.Keys == s.objs.Keys
      && (forall x, r :: Member(s', x, r) <==> Member(s, x, r))
      && (forall id :: id in s.objs ==> s'.objs[id] == s.objs[id].(closed := s.objs[id].closed || id in ids))
  {
    var s' := Closed(s, ids);
    forall x, r ensures Member(s', x, r) <==> Member(s, x, r) {}
  }

  /** A presence fan-out does what the broadcast to the user does, and closes exactly those it unregisters. */
  lemma PresenceExact(s: State, user: UUID, payload: Payload)
    requires Linked(s)
    ensures var s' := AfterPresence(s, user, payload);
      && Linked(s') && (Sound(s) ==> Sound(s'))
      && s'.objs.Keys == s.objs.Keys && s'.registered <= s.registered
      && (forall id :: id in s.objs ==> s'.objs[id].user == s.objs[id].user)
      && (forall id :: id in s.objs ==>
            s'.objs[id].send ==
              if id in s.registered && s.objs[id].user == user && |s.objs[id].send| < SEND_CAPACITY
              then s.objs[id].send + [payload] else s.objs[id].send)
      && (forall id :: id in s.registered ==>
            (id !in s'.registered <==> s.objs[id].user == user && |s.objs[id].send| == SEND_CAPACITY))
      && (forall id, q :: Member(s', id, q) <==> Member(s, id, q) && !(id in s.registered && id !in s'.registered))
      && (forall id :: id in s.objs ==>
            s'.objs[id].closed == (s.objs[id].closed || (id in s.registered && id !in s'.registered)))
  {
    hide Linked, Sound, BroadcastToUser, Closed, Member;
    BroadcastUserExact(s, user, payload, true);
    var t := BroadcastToUser(s, user, payload, true);
    ClosingExact(t, s.registered - t.registered);
  }

  /** Closing does what unregistering does, and marks the connection. */
  lemma CloseExact(s: State, id: ConnId)
    requires Linked(s) && id in s.objs
    ensures var s' := AfterClose(s, id);
      && Linked(s') && (Sound(s) ==> Sound(s'))
      && s'.registered == s.registered - {id} && s'.objs.Keys == s.objs.Keys
      && (forall x, r :: Member(s', x, r) <==> Member(s, x, r) && !(x == id && id in s.registered))
      && (forall x :: x in s.objs ==> s'.objs[x].user == s.objs[x].user && s'.objs[x].send == s.objs[x].send)
      && (forall x :: x in s.objs ==> s'.objs[x].closed == (s.objs[x].closed || x == id))
  {
    hide Linked, Sound, AfterUnregister, Closed, Member;
    if id in s.registered {
      UnregisterExact(s, id);
    } else {
      NotRegistered(s, id);
    }
    ClosingExact(AfterUnregister(s, id), {id});
  }

  lemma NotRegistered(s: State, id: ConnId)
    ensures id !in s.registered ==> AfterUnregister(s, id) == s
  {
  }

  /** Unregistering, whether or not the connection is registered. */
  lemma UnregisterAny(s: State, id: ConnId)
    requires Linked(s) && id in s.objs
    ensures var s' := AfterUnregister(s, id);
      && s'.registered == s.registered - {id} && s'.objs.Keys == s.objs.Keys
      && (forall x, r :: Member(s', x, r) <==> Member(s, x, r) && !(x == id && id in s.registered))
      && (forall x :: x in s.objs ==> s'.objs[x].user == s.objs[x].user && s'.objs[x].send == s.objs[x].send)
      && (forall x :: x in s.objs ==> s'.objs[x].closed == s.objs[x].closed)
  {
    NotRegistered(s, id);
    if id in s.registered {
      UnregisterExact(s, id);
    }
    hide AfterUnregister, Linked;
  }

  // ---------- Runs ----------

  lemma SubscribeMembers(s: State, id: ConnId, r: RoomId)
    requires id in s.objs
    ensures forall x, q :: Member(AfterSubscribe(s, id, r), x, q) <==> Member(s, x, q) || (x == id && q == r)
  {
  }

  lemma DetachMembers(s: State, id: ConnId, rs: set<RoomId>)
    requires id in s.objs
    ensures forall x, q :: Member(Detach(s, id, rs), x, q) <==> Member(s, x, q) && !(x == id && q in rs)
  {
    forall x, q ensures Member(Detach(s, id, rs), x, q) <==> Member(s, x, q) && !(x == id && q in rs) {
      if Member(s, x, q) && !(x == id && q in rs) && q in rs {
        assert x in s.rooms[q] - {id};
      }
    }
  }

  lemma DetachObjs(s: State, id: ConnId, rs: set<RoomId>)
    requires id in s.objs
    ensures var s' := Detach(s, id, rs);
      && s'.registered == s.registered && s'.objs.Keys == s.objs.Keys
      && (forall x :: x in s.objs ==> s'.objs[x].user == s.objs[x].user && s'.objs[x].send == s.objs[x].send)
      && (forall x :: x in s.objs ==> s'.objs[x].closed == s.objs[x].closed)
  {
  }

  lemma DetachKeepsLinked(s: State, id: ConnId, rs: set<RoomId>)
    requires Linked(s) && id in s.objs
    ensures Linked(Detach(s, id, rs)) && (Sound(s) ==> Sound(Detach(s, id, rs)))
  {
    DetachMembers(s, id, rs);
  }

  lemma SubscribeRooms(s: State, id: ConnId, r: RoomId)
    requires Linked(s) && id in s.objs
    ensures var s' := AfterSubscribe(s, id, r);
      s'.roomGauge == |s'.rooms| && forall q :: q in s'.rooms ==> s'.rooms[q] != {}
  {
    var s' := AfterSubscribe(s, id, r);
    assert id in s'.rooms[r];
    if r in s.rooms {
      assert s'.rooms.Keys == s.rooms.Keys;
      assert |s'.rooms.Keys| == |s'.rooms| && |s.rooms.Keys| == |s.rooms|;
    }
  }

  lemma SubscribeObjs(s: State, id: ConnId, r: RoomId)
    requires id in s.objs
    ensures var s' := AfterSubscribe(s, id, r);
      && s'.registered == s.registered && s'.connGauge == s.connGauge && s'.objs.Keys == s.objs.Keys
      && (forall x :: x in s.objs ==> s'.objs[x].user == s.objs[x].user && s'.objs[x].send == s.objs[x].send)
      && (forall x :: x in s.objs ==> s'.objs[x].closed == s.objs[x].closed)
      && (forall x :: x in s.objs ==> s'.objs[x].rooms == s.objs[x].rooms + if x == id then {r} else {})
  {
  }

  lemma LinkedIndex(s: State)
    requires Linked(s)
    ensures forall x, q :: x in s.objs ==> (q in s.objs[x].rooms <==> Member(s, x, q))
    ensures forall q, x :: Member(s, x, q) ==> x in s.objs
  {
    hide Member;
  }

  lemma SubscribeIndex(s: State, id: ConnId, r: RoomId)
    requires Linked(s) && id in s.objs
    ensures var s' := AfterSubscribe(s, id, r);
      && (forall x, q :: x in s'.objs ==> (q in s'.objs[x].rooms <==> Member(s', x, q)))
      && (forall q, x :: Member(s', x, q) ==> x in s'.objs)
  {
    hide AfterSubscribe, Member, Linked;
    var s' := AfterSubscribe(s, id, r);
    LinkedIndex(s);
    SubscribeMembers(s, id, r);
    SubscribeObjs(s, id, r);
    forall x, q | x in s'.objs ensures q in s'.objs[x].rooms <==> Member(s', x, q) {
      assert q in s.objs[x].rooms <==> Member(s, x, q);
    }
  }

  lemma SubscribeKeepsLinked(s: State, id: ConnId, r: RoomId)
    requires Linked(s) && id in s.objs
    ensures Linked(AfterSubscribe(s, id, r))
  {
    SubscribeIndex(s, id, r);
    SubscribeRooms(s, id, r);
    SubscribeObjs(s, id, r);
    hide Member, AfterSubscribe;
  }

  /** MAIN: a subscription keeps the hub sound if and only if its connection is registered. Subscribe
      does not look; a connection that was disconnected as slow still reads, and may ask. */
  lemma SubscribeSoundIff(s: State, id: ConnId, r: RoomId)
    requires Sound(s) && id in s.objs
    ensures Sound(AfterSubscribe(s, id, r)) <==> id in s.registered
  {
    SubscribeKeepsLinked(s, id, r);
    SubscribeMembers(s, id, r);
    assert Member(AfterSubscribe(s, id, r), id, r);
  }

  /** Such a member is beyond the reach of Unregister, also of the one its own Close performs. */
  lemma UnregisteredMemberStays(s: State, id: ConnId, r: RoomId)
    requires Linked(s) && id in s.objs && id !in s.registered
    ensures var s' := AfterUnregister(AfterSubscribe(s, id, r), id); Member(s', id, r) && id !in s'.registered
  {
    SubscribeMembers(s, id, r);
  }

  datatype Step =
    | Register(id: ConnId, user: UUID)
    | Unregister(id: ConnId)
    | Subscribe(id: ConnId, room: RoomId)
    | Unsubscribe(id: ConnId, room: RoomId)
    | BroadcastRoom(room: RoomId, payload: Payload, verdict: ConnId -> bool)
    | BroadcastUser(user: UUID, payload: Payload, pass: bool)
    | PresenceChanged(user: UUID, payload: Payload)
    | Pump(id: ConnId)
    | Close(id: ConnId)

  datatype Outcome = Running(state: State) | Crashed

  /** Connection ids are fresh uuids; every other step names a connection that was created. */
  ghost predicate Enabled(s: State, step: Step) {
    match step
    case Register(id, _) => id !in s.objs
    case Unregister(id) => id in s.objs
    case Subscribe(id, _) => id in s.objs
    case Unsubscribe(id, _) => id in s.objs
    case BroadcastRoom(_, _, _) => true
    case BroadcastUser(_, _, _) => true
    case PresenceChanged(_, _) => true
    case Pump(id) => id in s.objs && s.objs[id].send != []
    case Close(id) => id in s.objs
  }

  /** A send on a closed channel brings the process down, whoever else has been served by then. */
  ghost function Apply(s: State, step: Step): Outcome
    requires Enabled(s, step)
  {
    match step
    case Register(id, user) => Running(AfterRegister(s, id, user))
    case Unregister(id) => Running(AfterUnregister(s, id))
    case Subscribe(id, r) => Running(AfterSubscribe(s, id, r))
    case Unsubscribe(id, r) => Running(Detach(s, id, {r}))
    case BroadcastRoom(r, payload, verdict) =>
      if SendsOnClosed(s, Audience(s, r, verdict)) then Crashed else Running(BroadcastToRoom(s, r, payload, verdict))
    case BroadcastUser(user, payload, pass) =>
      if pass && SendsOnClosed(s, ConnectionsOf(s, user)) then Crashed
      else Running(BroadcastToUser(s, user, payload, pass))
    case PresenceChanged(user, payload) =>
      if SendsOnClosed(s, ConnectionsOf(s, user)) then Crashed else Running(AfterPresence(s, user, payload))
    case Pump(id) => Running(AfterPump(s, id))
    case Close(id) => Running(AfterClose(s, id))
  }

  /** MAIN: a step crashes if and only if it is a room broadcast with a closed member that passes the filter. */
  lemma CrashesIff(s: State, step: Step)
    requires Linked(s) && Enabled(s, step)
    ensures Apply(s, step).Crashed? <==>
      step.BroadcastRoom? &&
      exists id :: id in s.objs && Member(s, id, step.room) && step.verdict(id) && s.objs[id].closed
  {
    if step.BroadcastRoom? {
      var ids := Audience(s, step.room, step.verdict);
      assert forall id :: id in ids <==> id in s.objs && Member(s, id, step.room) && step.verdict(id);
    }
  }

  /** MAIN: a hub whose members are all registered crashes at no step. */
  lemma SoundNeverCrashes(s: State, step: Step)
    requires Sound(s) && Enabled(s, step)
    ensures Apply(s, step).Running?
  {
    CrashesIff(s, step);
  }

  lemma RegisterKeepsLinked(s: State, id: ConnId, user: UUID)
    requires Linked(s) && id !in s.objs
    ensures Linked(AfterRegister(s, id, user)) && (Sound(s) ==> Sound(AfterRegister(s, id, user)))
  {
    var s' := AfterRegister(s, id, user);
    assert id !in s.registered;
    forall x, q ensures Member(s', x, q) <==> Member(s, x, q) {}
    forall x, q | x in s'.objs ensures q in s'.objs[x].rooms <==> Member(s', x, q) {
      if x == id {
        assert Member(s, x, q) ==> x in s.objs;
      } else {
        assert q in s.objs[x].rooms <==> Member(s, x, q);
      }
    }
  }

  lemma RegisterExact(s: State, id: ConnId, user: UUID)
    requires id !in s.objs
    ensures var s' := AfterRegister(s, id, user);
      && s'.registered == s.registered + {id} && s'.objs.Keys == s.objs.Keys + {id}
      && (forall x :: x in s.objs ==> s'.objs[x] == s.objs[x])
      && s'.objs[id] == ConnView(user, {}, [], false)
      && (forall x, q :: Member(s', x, q) <==> Member(s, x, q))
  {
  }

  lemma PumpExact(s: State, id: ConnId)
    requires id in s.objs && s.objs[id].send != []
    ensures var s' := AfterPump(s, id);
      && s'.registered == s.registered && s'.objs.Keys == s.objs.Keys
      && (forall x :: x in s.objs && x != id ==> s'.objs[x] == s.objs[x])
      && s'.objs[id] == s.objs[id].(send := s.objs[id].send[1..])
      && (forall x, q :: Member(s', x, q) <==> Member(s, x, q))
  {
  }

  lemma PumpKeepsLinked(s: State, id: ConnId)
    requires Linked(s) && id in s.objs && s.objs[id].send != []
    ensures Linked(AfterPump(s, id)) && (Sound(s) ==> Sound(AfterPump(s, id)))
  {
    forall x, q ensures Member(AfterPump(s, id), x, q) <==> Member(s, x, q) {}
  }

  lemma ApplyKeepsLinked(s: State, step: Step)
    requires Linked(s) && Enabled(s, step) && Apply(s, step).Running?
    ensures Linked(Apply(s, step).state)
    ensures Sound(s) && (step.Subscribe? ==> step.id in s.registered) ==> Sound(Apply(s, step).state)
  {
    hide Linked, Sound;
    match step
    case Register(id, user) => RegisterKeepsLinked(s, id, user);
    case Unregister(id) =>
      if id in s.registered {
        UnregisterExact(s, id);
      }
    case Subscribe(id, r) =>
      SubscribeKeepsLinked(s, id, r);
      if Sound(s) {
        SubscribeSoundIff(s, id, r);
      }
    case Unsubscribe(id, r) => DetachKeepsLinked(s, id, {r});
    case BroadcastRoom(r, payload, verdict) => BroadcastExact(s, r, payload, verdict);
    case BroadcastUser(user, payload, pass) => BroadcastUserExact(s, user, payload, pass);
    case PresenceChanged(user, payload) => PresenceExact(s, user, payload);
    case Pump(id) => PumpKeepsLinked(s, id);
    case Close(id) => CloseExact(s, id);
  }

  /** A run of enabled steps from one state to another, without a crash. */
  ghost predicate Runs(s: State, steps: seq<Step>, t: State)
    decreases steps
  {
    if steps == [] then
      s == t
    else
      && Enabled(s, steps[0]) && Apply(s, steps[0]).Running?
      && Runs(Apply(s, steps[0]).state, steps[1..], t)
  }

  /** Every step of the list can be taken until one crashes, and every subscription is by a connection registered
      at that moment. */
  ghost predicate OnlyRegisteredSubscribe(s: State, steps: seq<Step>)
    decreases steps
  {
    steps == [] ||
    (Enabled(s, steps[0]) &&
     (steps[0].Subscribe? ==> steps[0].id in s.registered) &&
     (Apply(s, steps[0]).Running? ==> OnlyRegisteredSubscribe(Apply(s, steps[0]).state, steps[1..])))
  }

  /** MAIN: through every run with fresh ids the two indexes agree, no room is empty and both gauges
      are exact; and if only registered connections subscribe, every room member stays registered. */
  lemma {:induction false} RunsStayLinked(s: State, steps: seq<Step>, t: State)
    requires Linked(s) && Runs(s, steps, t)
    ensures Linked(t)
    ensures Sound(s) && OnlyRegisteredSubscribe(s, steps) ==> Sound(t)
    decreases steps
  {
    hide Linked, Sound, Enabled, Apply;
    if steps != [] {
      ApplyKeepsLinked(s, steps[0]);
      RunsStayLinked(Apply(s, steps[0]).state, steps[1..], t);
    }
  }

  /** MAIN: if only registered connections subscribe, no step of the whole list crashes. */
  lemma {:induction false} RegisteredSubscribersNeverCrash(s: State, steps: seq<Step>)
    requires Sound(s) && OnlyRegisteredSubscribe(s, steps)
    ensures exists t :: Runs(s, steps, t) && Sound(t)
    decreases steps
  {
    hide Linked, Enabled, Apply;
    if steps == [] {
      assert Runs(s, [], s);
    } else {
      SoundNeverCrashes(s, steps[0]);
      SoundIsLinked(s);
      ApplyKeepsLinked(s, steps[0]);
      hide Sound;
      RegisteredSubscribersNeverCrash(Apply(s, steps[0]).state, steps[1..]);
      var t :| Runs(Apply(s, steps[0]).state, steps[1..], t) && Sound(t);
      assert Runs(s, steps, t);
    }
  }

  lemma SoundIsLinked(s: State)
    requires Sound(s)
    ensures Linked(s)
  {
  }
}
