/** The hub with its maps and connection objects updated in place, proved against HubState. */
module Hub {
  import opened Common
  import opened HubState

  class Connection {
    const id: ConnId
    const userID: UUID
    var rooms: set<RoomId>
    /** The frames waiting in the Send channel, and whether the channel is closed. */
    var send: seq<Payload>
    var closed: bool

    constructor (id: ConnId, userID: UUID)
      ensures this.id == id && this.userID == userID && View() == ConnView(userID, {}, [], false)
    {
      this.id, this.userID, rooms, send, closed := id, userID, {}, [], false;
    }

    function View(): ConnView
      reads this
    {
      ConnView(userID, rooms, send, closed)
    }
  }

  /** A connection id is a fresh uuid, so it stands for one object throughout. The two maps from ids to
      objects are therefore kept as the sets of their ids, beside one table that says which object an id
      stands for; the table also holds the objects that have left the registry and live on in their pumps. */
  class Hub {
    var connections: set<ConnId>
    var rooms: map<RoomId, set<ConnId>>
    /** The two gauges of the metrics collector. */
    var activeConnections: int
    var activeRooms: int
    var table: map<ConnId, Connection>
    /** What the objects of the table hold. */
    ghost var objs: map<ConnId, ConnView>

    constructor ()
      ensures Valid() && View() == EMPTY && table == map[]
    {
      connections, rooms, table, objs := {}, map[], map[], map[];
      activeConnections, activeRooms := 0, 0;
    }

    ghost function View(): State
      reads this`connections, this`rooms, this`activeConnections, this`activeRooms, this`objs
    {
      State(objs, connections, rooms, activeConnections, activeRooms)
    }

    ghost predicate Mirrored()
      reads this`table, this`objs, table.Values
    {
      && table.Keys == objs.Keys
      && forall id :: id in table ==> table[id].id == id && table[id].View() == objs[id]
    }

    ghost predicate Valid()
      reads this, table.Values
    {
      Mirrored() && Linked(View())
    }

    predicate Knows(conn: Connection)
      reads this`table
    {
      conn.id in table && table[conn.id] == conn
    }

    lemma MirroredAt(conn: Connection)
      requires Mirrored() && Knows(conn)
      ensures conn.id in objs && objs[conn.id] == conn.View()
    {
    }

    lemma Pack()
      requires Mirrored() && Linked(View())
      ensures Valid()
    {
    }

    method SetRooms(conn: Connection, joined: set<RoomId>)
      requires Mirrored() && Knows(conn)
      modifies this`objs, conn`rooms
      ensures Mirrored() && conn.id in old(objs)
      ensures objs == old(objs)[conn.id := old(objs)[conn.id].(rooms := joined)]
    {
      conn.rooms := joined;
      objs := objs[conn.id := conn.View()];
    }

    method SetSend(conn: Connection, waiting: seq<Payload>)
      requires Mirrored() && Knows(conn)
      modifies this`objs, conn`send
      ensures Mirrored() && conn.id in old(objs)
      ensures objs == old(objs)[conn.id := old(objs)[conn.id].(send := waiting)]
    {
      conn.send := waiting;
      objs := objs[conn.id := conn.View()];
    }

    /** The connection is new: its id is a fresh uuid and it has joined no room. */
    method Register(conn: Connection)
      requires Valid() && conn.id !in table && conn.View() == ConnView(conn.userID, {}, [], false)
      modifies this
      ensures Valid() && table == old(table)[conn.id := conn]
      ensures View() == AfterRegister(old(View()), conn.id, conn.userID)
    {
      hide Linked, AfterRegister;
      assert Mirrored() && Linked(View());
      hide Valid;
      RegisterKeepsLinked(View(), conn.id, conn.userID);
      Registered(View(), conn.id, conn.userID);
      connections := connections + {conn.id};
      activeConnections := activeConnections + 1;
      table, objs := table[conn.id := conn], objs[conn.id := conn.View()];
      Pack();
    }

    method Subscribe(conn: Connection, r: RoomId)
      requires Valid() && Knows(conn)
      modifies this`rooms, this`activeRooms, this`objs, conn`rooms
      ensures Valid() && View() == AfterSubscribe(old(View()), conn.id, r)
    {
      hide Linked, Mirrored, AfterSubscribe;
      MirroredAt(conn);
      SubscribeKeepsLinked(View(), conn.id, r);
      Subscribed(View(), conn.id, r);
      var wasNewRoom := r !in rooms;
      SetRooms(conn, conn.rooms + {r});
      if r !in rooms {
        rooms := rooms[r := {}];
      }
      rooms := rooms[r := rooms[r] + {conn.id}];
      if wasNewRoom {
        activeRooms := |rooms|;
      }
    }

    /** unsubscribeUnsafe; the caller holds the lock. */
    method UnsubscribeUnsafe(conn: Connection, r: RoomId)
      requires Valid() && Knows(conn)
      modifies this`rooms, this`activeRooms, this`objs, conn`rooms
      ensures Valid() && View() == Detach(old(View()), conn.id, {r})
    {
      hide Linked, Mirrored, Detached;
      MirroredAt(conn);
      DetachKeepsLinked(View(), conn.id, {r});
      GaugeAndEmptiness(View());
      DetachedAt(rooms, conn.id, r);
      var wasLastConnection := r in rooms && |rooms[r]| == 1;
      SetRooms(conn, conn.rooms - {r});
      if r in rooms {
        var roomConnections := rooms[r] - {conn.id};
        if |roomConnections| == 0 {
          rooms := rooms - {r};
        } else {
          rooms := rooms[r := roomConnections];
        }
      }
      if wasLastConnection {
        activeRooms := |rooms|;
      }
    }

    method Unsubscribe(conn: Connection, r: RoomId)
      requires Valid() && Knows(conn)
      modifies this`rooms, this`activeRooms, this`objs, conn`rooms
      ensures Valid() && View() == Detach(old(View()), conn.id, {r})
    {
      UnsubscribeUnsafe(conn, r);
    }

    /** The loop of Unregister. */
    method LeaveRooms(conn: Connection)
      requires Valid() && Knows(conn)
      modifies this`rooms, this`activeRooms, this`objs, conn`rooms
      ensures Valid() && View() == Detach(old(View()), conn.id, old(conn.rooms))
    {
      hide Linked, Detach, Mirrored;
      MirroredAt(conn);
      ghost var s := View();
      var pending := conn.rooms;
      ghost var all := pending;
      DetachNothing(s, conn.id);
      assert all - pending == {};
      while pending != {}
        invariant pending <= all
        invariant Valid() && Knows(conn)
        invariant View() == Detach(s, conn.id, all - pending)
      {
        var r :| r in pending;
        DetachOneMore(s, conn.id, all - pending, r);
        assert all - (pending - {r}) == all - pending + {r};
        UnsubscribeUnsafe(conn, r);
        pending := pending - {r};
      }
      assert all - pending == all;
    }

    method Unregister(conn: Connection)
      requires Valid() && Knows(conn)
      modifies this`connections, this`rooms, this`activeConnections, this`activeRooms, this`objs, conn`rooms
      ensures Valid() && View() == AfterUnregister(old(View()), conn.id)
    {
      hide Linked, Detach, Mirrored, AfterUnregister;
      MirroredAt(conn);
      NotRegistered(View(), conn.id);
      if conn.id !in connections {
        return;
      }
      DetachedFromAll(View(), conn.id);
      UnregisterExact(View(), conn.id);
      LeaveRooms(conn);
      connections := connections - {conn.id};
      activeConnections := activeConnections - 1;
      activeRooms := |rooms|;
    }

    method SetClosed(conn: Connection)
      requires Mirrored() && Knows(conn)
      modifies this`objs, conn`closed
      ensures Mirrored() && conn.id in old(objs)
      ensures objs == old(objs)[conn.id := old(objs)[conn.id].(closed := true)]
    {
      conn.closed := true;
      objs := objs[conn.id := conn.View()];
    }

    /** Connection.Close, which takes effect once. */
    method Close(conn: Connection)
      requires Valid() && Knows(conn)
      modifies this`connections, this`rooms, this`activeConnections, this`activeRooms, this`objs,
        conn`rooms, conn`closed
      ensures Valid() && View() == AfterClose(old(View()), conn.id)
    {
      hide Linked, Mirrored, AfterClose, AfterUnregister;
      MirroredAt(conn);
      CloseExact(View(), conn.id);
      ClosesOnce(View(), conn.id);
      CloseMarks(View(), conn.id);
      if conn.closed {
        return;
      }
      Unregister(conn);
      SetClosed(conn);
    }

    /** The non-blocking send of a broadcast: a client whose buffer is full is disconnected. */
    method Offer(conn: Connection, payload: Payload)
      requires Valid() && Knows(conn) && !conn.closed
      modifies this`connections, this`rooms, this`activeConnections, this`activeRooms, this`objs,
        conn`rooms, conn`send
      ensures Valid() && View() == HubState.Offer(old(View()), conn.id, payload)
    {
      hide Linked, Mirrored;
      MirroredAt(conn);
      if |conn.send| < SEND_CAPACITY {
        OfferKeepsLinked(View(), conn.id, payload);
        SetSend(conn, conn.send + [payload]);
      } else {
        Unregister(conn);
      }
    }

    /** Offer the payload to the connections of a snapshot, one by one in no particular order. A send on a
        closed channel is the end of it all. */
    method OfferEach(snapshot: set<ConnId>, payload: Payload) returns (crashed: bool)
      requires Valid() && snapshot <= table.Keys
      modifies this, table.Values
      ensures table == old(table) && table.Keys == old(View()).objs.Keys
      ensures crashed <==> SendsOnClosed(old(View()), snapshot)
      ensures !crashed ==> Valid() && View() == OfferAll(old(View()), snapshot, payload)
    {
      hide Linked, OfferAll, HubState.Offer;
      ghost var s := View();
      OfferNone(s, payload);
      var pending := snapshot;
      assert snapshot - pending == {};
      while pending != {}
        invariant pending <= snapshot
        invariant table == old(table) && Valid()
        invariant View() == OfferAll(s, snapshot - pending, payload)
        invariant forall id :: id in snapshot && id !in pending ==> !s.objs[id].closed
      {
        var id :| id in pending;
        OfferAllKeepsClosed(s, snapshot - pending, payload);
        if table[id].closed {
          return true;
        }
        OfferOneMore(s, snapshot - pending, id, payload);
        assert snapshot - (pending - {id}) == snapshot - pending + {id};
        Offer(table[id], payload);
        pending := pending - {id};
      }
      assert snapshot - pending == snapshot;
      return false;
    }

    /** BroadcastToRoomFiltered. The verdict is what the filter, called afresh for each subscriber,
        answers; without a filter everybody passes. */
    method BroadcastToRoomFiltered(r: RoomId, payload: Payload, filter: Option<ConnId -> bool>)
      returns (crashed: bool)
      requires Valid()
      modifies this, table.Values
      ensures table == old(table) && (!crashed ==> Valid())
      ensures var verdict := if filter.Some? then filter.value else Everybody;
        && (crashed <==> SendsOnClosed(old(View()), Audience(old(View()), r, verdict)))
        && (!crashed ==> View() == BroadcastToRoom(old(View()), r, payload, verdict))
    {
      hide Linked, OfferAll;
      ghost var verdict := if filter.Some? then filter.value else Everybody;
      MembersExist(View());
      OfferNone(View(), payload);
      if r !in rooms {
        return false;
      }
      var passing := set id | id in rooms[r] && (filter.None? || filter.value(id));
      assert passing == Audience(View(), r, verdict);
      crashed := OfferEach(passing, payload);
    }

    /** BroadcastToUserFiltered: the filter is asked once, about the user. It never sends on a closed channel, for
        it only reaches registered connections. */
    method BroadcastToUserFiltered(user: UUID, payload: Payload, pass: bool)
      requires Valid()
      modifies this, table.Values
      ensures table == old(table) && Valid()
      ensures View() == BroadcastToUser(old(View()), user, payload, pass)
    {
      if !pass {
        return;
      }
      var theirs := set id | id in connections && id in table && table[id].userID == user;
      assert theirs == ConnectionsOf(View(), user);
      var _ := OfferEach(theirs, payload);
    }
  }

  function Everybody(id: ConnId): bool {
    true
  }

  lemma Registered(s: State, id: ConnId, user: UUID)
    ensures AfterRegister(s, id, user) ==
      State(s.objs[id := ConnView(user, {}, [], false)], s.registered + {id}, s.rooms, s.connGauge + 1, s.roomGauge)
  {
  }

  lemma Subscribed(s: State, id: ConnId, r: RoomId)
    requires id in s.objs
    ensures var prepared := if r in s.rooms then s.rooms else s.rooms[r := {}];
      var rooms := prepared[r := prepared[r] + {id}];
      AfterSubscribe(s, id, r) ==
        State(s.objs[id := s.objs[id].(rooms := s.objs[id].rooms + {r})], s.registered, rooms, s.connGauge,
              if r in s.rooms then s.roomGauge else |rooms|)
  {
  }

  /** Removing a member from a room, and the room if it was the last, is what Detach does; unless the
      room held a single member, the set of rooms stays as it was. */
  lemma DetachedAt(rooms: map<RoomId, set<ConnId>>, id: ConnId, r: RoomId)
    requires forall q :: q in rooms ==> rooms[q] != {}
    ensures r !in rooms ==> Detached(rooms, id, {r}) == rooms
    ensures r in rooms && rooms[r] - {id} == {} ==> Detached(rooms, id, {r}) == rooms - {r} && |rooms[r]| == 1
    ensures r in rooms && rooms[r] - {id} != {} ==> Detached(rooms, id, {r}) == rooms[r := rooms[r] - {id}]
    ensures r in rooms && rooms[r] - {id} != {} ==> |Detached(rooms, id, {r})| == |rooms|
  {
    var after := Detached(rooms, id, {r});
    if r in rooms {
      if rooms[r] - {id} == {} {
        LastMember(rooms[r], id);
      } else {
        assert after.Keys == rooms.Keys;
      }
    } else {
      assert after == rooms;
    }
  }

  lemma LastMember(members: set<ConnId>, id: ConnId)
    requires members != {}
    ensures members - {id} == {} ==> members == {id} && |members| == 1
  {
    if members - {id} == {} {
      assert members == {id};
    }
  }

  lemma GaugeAndEmptiness(s: State)
    requires Linked(s)
    ensures s.roomGauge == |s.rooms| && forall r :: r in s.rooms ==> s.rooms[r] != {}
  {
  }

  lemma MembersExist(s: State)
    requires Linked(s)
    ensures forall r, id :: r in s.rooms && id in s.rooms[r] ==> id in s.objs
  {
    assert forall r, id :: r in s.rooms && id in s.rooms[r] ==> Member(s, id, r);
  }

  lemma OfferKeepsLinked(s: State, id: ConnId, payload: Payload)
    requires Linked(s) && id in s.objs && HasSpace(s, id)
    ensures Linked(HubState.Offer(s, id, payload))
  {
    forall x, q ensures Member(HubState.Offer(s, id, payload), x, q) <==> Member(s, x, q) {}
  }

  lemma OfferAllKeepsClosed(s: State, ids: set<ConnId>, payload: Payload)
    requires ids <= s.objs.Keys
    ensures var t := OfferAll(s, ids, payload);
      t.objs.Keys == s.objs.Keys && forall id :: id in s.objs ==> t.objs[id].closed == s.objs[id].closed
  {
  }

  /** Closing a closed connection changes nothing: it is not registered, and marked already. */
  lemma ClosesOnce(s: State, id: ConnId)
    requires Linked(s) && id in s.objs
    ensures s.objs[id].closed ==> AfterClose(s, id) == s
  {
    if s.objs[id].closed {
      assert s.objs[id].(closed := true) == s.objs[id];
      assert AfterClose(s, id).objs == s.objs;
    }
  }

  lemma CloseMarks(s: State, id: ConnId)
    requires id in s.objs
    ensures var t := AfterUnregister(s, id);
      id in t.objs && AfterClose(s, id) == t.(objs := t.objs[id := t.objs[id].(closed := true)])
  {
    var t := AfterUnregister(s, id);
    assert AfterClose(s, id).objs == t.objs[id := t.objs[id].(closed := true)];
  }

  lemma DetachNothing(s: State, id: ConnId)
    requires Linked(s) && id in s.objs
    ensures Detach(s, id, {}) == s
  {
    assert Detached(s.rooms, id, {}) == s.rooms;
    assert s.objs[id].rooms - {} == s.objs[id].rooms;
    assert s.objs[id := s.objs[id]] == s.objs;
  }

  lemma DetachOneMore(s: State, id: ConnId, rs: set<RoomId>, r: RoomId)
    requires id in s.objs
    ensures Detach(Detach(s, id, rs), id, {r}) == Detach(s, id, rs + {r})
  {
    var t, u := Detach(Detach(s, id, rs), id, {r}), Detach(s, id, rs + {r});
    assert s.objs[id].rooms - rs - {r} == s.objs[id].rooms - (rs + {r});
    assert t.objs == u.objs;
    if r in s.rooms {
      assert s.rooms[r] - {id} - {id} == s.rooms[r] - {id};
    }
    assert t.rooms == u.rooms;
  }

  /** Leaving all of one's own rooms and then the registry is unregistering. */
  lemma DetachedFromAll(s: State, id: ConnId)
    requires Linked(s) && id in s.registered
    ensures var t := Detach(s, id, s.objs[id].rooms);
      AfterUnregister(s, id) == State(t.objs, t.registered - {id}, t.rooms, t.connGauge - 1, |t.rooms|)
  {
    var t := Detach(s, id, s.objs[id].rooms);
    assert s.objs[id].rooms - s.objs[id].rooms == {};
    forall r | r in s.rooms && r !in s.objs[id].rooms ensures s.rooms[r] - {id} == s.rooms[r] {
      assert !Member(s, id, r);
    }
    forall r | r in s.rooms ensures r in t.rooms <==> r in Without(s.rooms, {id}) {
      assert s.rooms[r] != {};
    }
    assert t.rooms == Without(s.rooms, {id});
  }
}
