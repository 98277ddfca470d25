/** The subscriber that fans presence events out to connections, dropping stale versions. */
module PresenceSubscriber {
  import opened Common
  import opened LeaseProtocol
  import opened LeaseInvariants
  import opened VersionAccounting
  import opened PresenceService
  import opened Visibility
  import HubState

  /** A received payload: None if it is no JSON event. */
  datatype Message = Message(kind: string, state: State)

  const CHANGED := "presence.changed"

  predicate WellFormed(m: Option<Message>) {
    m.Some? && m.value.kind == CHANGED && m.value.state.user != NIL_UUID
  }

  /** A live connection, as the fan-out sees it; full if its Send channel has no space. */
  datatype Conn = Conn(id: ConnId, user: UserId, full: bool)

  /** A presence.changed frame offered to a connection. */
  datatype Frame = Frame(conn: ConnId, state: State)

  class Subscriber {
    var deliveredVersions: map<UserId, int>

    constructor ()
      ensures deliveredVersions == map[]
    {
      deliveredVersions := map[];
    }

    method ShouldDeliver(u: UserId, version: int) returns (deliver: bool)
      modifies this
      ensures deliver <==> u !in old(deliveredVersions) || old(deliveredVersions)[u] < version
      ensures deliveredVersions == if deliver then old(deliveredVersions)[u := version] else old(deliveredVersions)
    {
      if u in deliveredVersions && version <= deliveredVersions[u] {
        return false;
      }
      deliveredVersions := deliveredVersions[u := version];
      deliver := true;
    }

    /** handleMessage: conns are all live connections; the hub hands out those of the subject itself. If the
        message is accepted and the reads succeed, each of these is offered the received state unchanged, in
        turn; one with a full buffer is closed instead. No other user is ever sent a frame. */
    method HandleMessage(w: World, message: Option<Message>, conns: seq<Conn>, queries: Queries)
      returns (accepted: bool, frames: seq<Frame>, closed: seq<ConnId>)
      modifies this
      ensures deliveredVersions == Receive(old(deliveredVersions), message)
      ensures accepted == Accepts(old(deliveredVersions), message)
      ensures var served := accepted && ReadsOk(queries);
        && frames == (if served then FramesFor(OwnConns(conns, message.value.state.user), message.value.state) else [])
        && closed == (if served then FullOnes(OwnConns(conns, message.value.state.user)) else [])
    {
      frames, closed := [], [];
      if message.None? || message.value.kind != CHANGED {
        return false, [], [];
      }
      var state := message.value.state;
      if state.user == NIL_UUID {
        return false, [], [];
      }
      accepted := ShouldDeliver(state.user, state.version);
      if !accepted {
        return;
      }
      var own := OwnConns(conns, state.user);
      OwnConnsExact(conns, state.user);
      if |own| == 0 {
        return;
      }
      var visible := ResolveVisibleStatesForTarget(w, state.user, [state.user], state, queries);
      assert !AllNil([state.user]) by {
        assert state.user in [state.user];
      }
      if visible.Err? {
        return;
      }
      var i := 0;
      while i < |own|
        invariant 0 <= i <= |own|
        invariant frames == FramesFor(own[..i], state) && closed == FullOnes(own[..i])
      {
        var c := own[i];
        assert c in own;
        var shown := visible.value[c.user].(user := state.user);
        if c.user == state.user {
          shown := state;
        }
        assert own[..i + 1][..i] == own[..i];
        if !c.full {
          frames := frames + [Frame(c.id, shown)];
        } else {
          closed := closed + [c.id];
        }
        i := i + 1;
      }
      assert own[..i] == own;
    }
  }

  /** The reads behind one message: user rows and blocks. */
  predicate ReadsOk(queries: Queries) {
    queries.factsOk && queries.blocksOk
  }

  /** GetUserConnections */
  function OwnConns(conns: seq<Conn>, u: UserId): seq<Conn> {
    if conns == [] then []
    else OwnConns(conns[..|conns| - 1], u) +
         if conns[|conns| - 1].user == u then [conns[|conns| - 1]] else []
  }

  lemma {:induction false} OwnConnsExact(conns: seq<Conn>, u: UserId)
    ensures forall c :: c in OwnConns(conns, u) <==> c in conns && c.user == u
  {
    if conns != [] {
      OwnConnsExact(conns[..|conns| - 1], u);
      assert conns == conns[..|conns| - 1] + [conns[|conns| - 1]];
    }
  }

  /** One frame for each connection with space, in order. */
  function FramesFor(own: seq<Conn>, state: State): seq<Frame> {
    if own == [] then []
    else FramesFor(own[..|own| - 1], state) +
         if own[|own| - 1].full then [] else [Frame(own[|own| - 1].id, state)]
  }

  function FullOnes(own: seq<Conn>): seq<ConnId> {
    if own == [] then []
    else FullOnes(own[..|own| - 1]) + if own[|own| - 1].full then [own[|own| - 1].id] else []
  }

  /** Of a served message, exactly the subject's own connections with space get a frame, and exactly its
      full ones are closed: each of them has one or the other, once. */
  lemma {:induction false} ServedExactly(own: seq<Conn>, state: State)
    ensures |FramesFor(own, state)| + |FullOnes(own)| == |own|
    ensures forall f :: f in FramesFor(own, state) <==>
      f.state == state && exists c :: c in own && !c.full && c.id == f.conn
    ensures forall id :: id in FullOnes(own) <==> exists c :: c in own && c.full && c.id == id
  {
    if own != [] {
      var before, last := own[..|own| - 1], own[|own| - 1];
      ServedExactly(before, state);
      assert own == before + [last];
    }
  }

  // ---------- The fan-out as a step of the hub ----------

  /** The connections handed out for u are the registered ones of u in the hub, each once, and full as they are. */
  ghost predicate HandsOut(s: HubState.State, u: UserId, own: seq<Conn>)
    requires s.registered <= s.objs.Keys
  {
    && DistinctIds(own)
    && (forall c :: c in own ==> c.id in s.registered && s.objs[c.id].user == u == c.user &&
                                 (c.full <==> |s.objs[c.id].send| == HubState.SEND_CAPACITY))
    && (forall id :: id in s.registered && s.objs[id].user == u ==> exists c :: c in own && c.id == id)
  }

  /** The live connections, as the fan-out sees them, are the registered ones of the hub, each once. */
  ghost predicate Lists(s: HubState.State, conns: seq<Conn>)
    requires s.registered <= s.objs.Keys
  {
    && DistinctIds(conns)
    && (forall c :: c in conns ==> c.id in s.registered && s.objs[c.id].user == c.user &&
                                   (c.full <==> |s.objs[c.id].send| == HubState.SEND_CAPACITY))
    && (forall id :: id in s.registered ==> exists c :: c in conns && c.id == id)
  }

  lemma {:induction false} OwnConnsDistinct(conns: seq<Conn>, u: UserId)
    requires DistinctIds(conns)
    ensures DistinctIds(OwnConns(conns, u))
  {
    if conns != [] {
      var before, last := conns[..|conns| - 1], conns[|conns| - 1];
      OwnConnsDistinct(before, u);
      OwnConnsExact(before, u);
      forall i | 0 <= i < |OwnConns(before, u)| ensures OwnConns(before, u)[i].id != last.id {
        assert OwnConns(before, u)[i] in before;
        var j :| 0 <= j < |before| && before[j] == OwnConns(before, u)[i];
        assert conns[j].id != conns[|conns| - 1].id;
      }
    }
  }

  /** What the loop finds among all live connections are the registered ones of the user, each once. */
  lemma {:induction false} HandsOutOwn(s: HubState.State, conns: seq<Conn>, u: UserId)
    requires s.registered <= s.objs.Keys && Lists(s, conns)
    ensures HandsOut(s, u, OwnConns(conns, u))
  {
    hide DistinctIds;
    OwnConnsDistinct(conns, u);
    OwnConnsExact(conns, u);
    forall id | id in s.registered && s.objs[id].user == u ensures exists c :: c in OwnConns(conns, u) && c.id == id {
      var c :| c in conns && c.id == id;
      assert c in OwnConns(conns, u);
    }
  }

  /** What some frames append to the buffer of a connection. */
  function SentTo(frames: seq<Frame>, id: ConnId, marshal: State -> HubState.Payload): seq<HubState.Payload> {
    if frames == [] then []
    else
      var last := frames[|frames| - 1];
      SentTo(frames[..|frames| - 1], id, marshal) + if last.conn == id then [marshal(last.state)] else []
  }

  lemma {:induction false} SentOneMore(frames: seq<Frame>, f: Frame, id: ConnId, marshal: State -> HubState.Payload)
    ensures SentTo(frames + [f], id, marshal) ==
      SentTo(frames, id, marshal) + if f.conn == id then [marshal(f.state)] else []
  {
    assert (frames + [f])[..|frames|] == frames;
  }

  /** The connection is among them and has space. */
  ghost predicate Takes(own: seq<Conn>, id: ConnId) {
    exists c :: c in own && c.id == id && !c.full
  }

  predicate DistinctIds(own: seq<Conn>) {
    forall i, j :: 0 <= i < j < |own| ==> own[i].id != own[j].id
  }

  lemma TakesOneMore(own: seq<Conn>, last: Conn, id: ConnId)
    requires DistinctIds(own + [last])
    ensures DistinctIds(own)
    ensures Takes(own + [last], id) <==> if last.id == id then !last.full else Takes(own, id)
    ensures last.id == id ==> !Takes(own, id)
  {
    var all := own + [last];
    assert DistinctIds(own) by {
      assert forall i :: 0 <= i < |own| ==> all[i] == own[i];
    }
    forall c | c in own ensures c in all && c.id != last.id {
      var i :| 0 <= i < |own| && own[i] == c;
      assert all[i] == c && all[|own|] == last;
    }
    assert all[|own|] == last;
  }

  lemma {:induction false} SentOnce(own: seq<Conn>, state: State, id: ConnId, marshal: State -> HubState.Payload)
    requires DistinctIds(own)
    ensures SentTo(FramesFor(own, state), id, marshal) == if Takes(own, id) then [marshal(state)] else []
  {
    if own != [] {
      hide Takes, DistinctIds, SentTo;
      var before, last := own[..|own| - 1], own[|own| - 1];
      assert own == before + [last];
      TakesOneMore(before, last, id);
      SentOnce(before, state, id, marshal);
      if !last.full {
        SentOneMore(FramesFor(before, state), Frame(last.id, state), id, marshal);
      } else {
        assert FramesFor(own, state) == FramesFor(before, state);
      }
    }
  }

  /** MAIN: what a served message sends and closes, connection by connection, is what the presence step of the hub
      does to every buffer, to the registry and to every connection. */
  lemma {:induction false} FanOutIsPresenceStep(s: HubState.State, conns: seq<Conn>, state: State,
                                                marshal: State -> HubState.Payload)
    requires HubState.Linked(s) && Lists(s, conns)
    ensures var own := OwnConns(conns, state.user);
      var s' := HubState.AfterPresence(s, state.user, marshal(state));
      && s'.objs.Keys == s.objs.Keys
      && (forall id :: id in s.objs ==>
            s'.objs[id].send == s.objs[id].send + SentTo(FramesFor(own, state), id, marshal))
      && (forall id :: id in s'.registered <==> id in s.registered && id !in FullOnes(own))
      && (forall id :: id in s.objs ==> (s'.objs[id].closed <==> s.objs[id].closed || id in FullOnes(own)))
  {
    hide HubState.AfterPresence, HubState.Linked, Lists, FullOnes, FramesFor, SentTo, OwnConns;
    PresenceKeys(s, state, marshal);
    forall id
      ensures id in s.objs ==> OneServed(s, HubState.AfterPresence(s, state.user, marshal(state)),
                                         OwnConns(conns, state.user), state, marshal, id)
      ensures id !in s.objs ==> id !in s.registered && id !in FullOnes(OwnConns(conns, state.user))
    {
      if id in s.objs {
        PresenceServesOne(s, conns, state, marshal, id);
      } else if id in FullOnes(OwnConns(conns, state.user)) {
        FullExist(s, conns, state, id);
      }
    }
  }

  lemma PresenceKeys(s: HubState.State, state: State, marshal: State -> HubState.Payload)
    requires HubState.Linked(s)
    ensures var s' := HubState.AfterPresence(s, state.user, marshal(state));
      s'.objs.Keys == s.objs.Keys && s'.registered <= s.registered <= s.objs.Keys
  {
    HubState.PresenceExact(s, state.user, marshal(state));
  }

  /** What the fan-out makes of the buffer, the registration and the mark of one connection. */
  ghost predicate OneServed(s: HubState.State, s': HubState.State, own: seq<Conn>, state: State,
                            marshal: State -> HubState.Payload, id: ConnId)
    requires id in s.objs
  {
    && id in s'.objs
    && s'.objs[id].send == s.objs[id].send + SentTo(FramesFor(own, state), id, marshal)
    && (id in s'.registered <==> id in s.registered && id !in FullOnes(own))
    && (s'.objs[id].closed <==> s.objs[id].closed || id in FullOnes(own))
  }

  lemma {:induction false} PresenceServesOne(s: HubState.State, conns: seq<Conn>, state: State,
                                             marshal: State -> HubState.Payload, id: ConnId)
    requires HubState.Linked(s) && Lists(s, conns) && id in s.objs
    ensures OneServed(s, HubState.AfterPresence(s, state.user, marshal(state)), OwnConns(conns, state.user), state,
                      marshal, id)
  {
    hide HubState.AfterPresence, HubState.Linked, HubState.Sound, HubState.Member, Lists, FullOnes, FramesFor, SentTo,
      OwnConns;
    ServedOne(s, conns, state, marshal, id);
    HubState.PresenceExact(s, state.user, marshal(state));
  }

  /** What the fan-out has in store for one connection of the hub. */
  lemma {:induction false} ServedOne(s: HubState.State, conns: seq<Conn>, state: State,
                                     marshal: State -> HubState.Payload, id: ConnId)
    requires HubState.Linked(s) && Lists(s, conns) && id in s.objs
    ensures var own := OwnConns(conns, state.user);
      && SentTo(FramesFor(own, state), id, marshal) ==
           (if id in s.registered && s.objs[id].user == state.user && |s.objs[id].send| < HubState.SEND_CAPACITY
            then [marshal(state)] else [])
      && (id in FullOnes(own) <==>
            id in s.registered && s.objs[id].user == state.user && |s.objs[id].send| == HubState.SEND_CAPACITY)
  {
    var own := OwnConns(conns, state.user);
    assert |s.objs[id].send| <= HubState.SEND_CAPACITY;
    HandsOutOwn(s, conns, state.user);
    ServedExactly(own, state);
    hide HubState.Linked, DistinctIds, Lists, FullOnes, FramesFor;
    SentOnce(own, state, id, marshal);
  }

  lemma {:induction false} FullExist(s: HubState.State, conns: seq<Conn>, state: State, id: ConnId)
    requires HubState.Linked(s) && Lists(s, conns) && id in FullOnes(OwnConns(conns, state.user))
    ensures id in s.objs
  {
    HandsOutOwn(s, conns, state.user);
    ServedExactly(OwnConns(conns, state.user), state);
  }

  // ---------- Which messages get through ----------

  predicate Accepts(delivered: map<UserId, int>, m: Option<Message>) {
    WellFormed(m) &&
    (m.value.state.user !in delivered || delivered[m.value.state.user] < m.value.state.version)
  }

  function Receive(delivered: map<UserId, int>, m: Option<Message>): map<UserId, int> {
    if Accepts(delivered, m) then delivered[m.value.state.user := m.value.state.version] else delivered
  }

  /** The versions remembered after receiving some messages since the last restart. */
  function ReceiveAll(ms: seq<Option<Message>>): map<UserId, int> {
    if ms == [] then map[] else Receive(ReceiveAll(ms[..|ms| - 1]), ms[|ms| - 1])
  }

  predicate AcceptedAt(ms: seq<Option<Message>>, i: nat)
    requires i < |ms|
  {
    Accepts(ReceiveAll(ms[..i]), ms[i])
  }

  /** Message j is a well-formed message about u. */
  predicate About(ms: seq<Option<Message>>, j: int, u: UserId) {
    0 <= j < |ms| && WellFormed(ms[j]) && ms[j].value.state.user == u
  }

  /** What is remembered for u is the greatest version received about u. */
  lemma {:induction false} RemembersMaximum(ms: seq<Option<Message>>, u: UserId)
    ensures u in ReceiveAll(ms) <==> exists j :: About(ms, j, u)
    ensures u in ReceiveAll(ms) ==>
      && (exists j :: About(ms, j, u) && ms[j].value.state.version == ReceiveAll(ms)[u])
      && (forall j :: About(ms, j, u) ==> ms[j].value.state.version <= ReceiveAll(ms)[u])
  {
    if ms != [] {
      var n := |ms| - 1;
      RemembersMaximum(ms[..n], u);
      forall j | 0 <= j < n ensures About(ms, j, u) <==> About(ms[..n], j, u) {}
      if u in ReceiveAll(ms[..n]) {
        var j :| About(ms[..n], j, u) && ms[..n][j].value.state.version == ReceiveAll(ms[..n])[u];
        assert About(ms, j, u);
      }
      if WellFormed(ms[n]) && ms[n].value.state.user == u {
        assert About(ms, n, u);
      }
    }
  }

  /** MAIN: for any arrival order and any duplicates, the accepted messages about a user are exactly the
      strict left-to-right maxima by version. */
  lemma AcceptedAreStrictMaxima(ms: seq<Option<Message>>, i: nat)
    requires i < |ms|
    ensures AcceptedAt(ms, i) <==>
      && ms[i].Some? && ms[i].value.kind == "presence.changed" && ms[i].value.state.user != 0
      && forall j :: 0 <= j < i && About(ms, j, ms[i].value.state.user) ==>
        ms[j].value.state.version < ms[i].value.state.version
  {
    if WellFormed(ms[i]) {
      var u := ms[i].value.state.user;
      RemembersMaximum(ms[..i], u);
      forall j | 0 <= j < i ensures About(ms, j, u) <==> About(ms[..i], j, u) {}
      if u in ReceiveAll(ms[..i]) {
        var j :| About(ms[..i], j, u) && ms[..i][j].value.state.version == ReceiveAll(ms[..i])[u];
        assert About(ms, j, u);
      }
    }
  }

  /** Message i is accepted and the reads made for it succeed, so it reaches the connections of its subject. */
  predicate ServedAt(ms: seq<Option<Message>>, queries: nat -> Queries, i: nat)
    requires i < |ms|
  {
    AcceptedAt(ms, i) && ReadsOk(queries(i))
  }

  /** MAIN: the version is remembered before the reads, so what happens to the first message about a user with a
      given version settles the matter: that version is ever served if and only if this message is a strict
      left-to-right maximum and its own reads succeed. No redelivery makes up for a failed read. */
  lemma RedeliveryNeverHelps(ms: seq<Option<Message>>, queries: nat -> Queries, i: nat)
    requires i < |ms| && WellFormed(ms[i])
    requires forall j :: 0 <= j < i && About(ms, j, ms[i].value.state.user) ==>
      ms[j].value.state.version != ms[i].value.state.version
    ensures var u, version := ms[i].value.state.user, ms[i].value.state.version;
      (exists k: nat :: (k < |ms| && About(ms, k, u) && ms[k].value.state.version == version &&
                         ServedAt(ms, queries, k))) <==>
      (forall j :: 0 <= j < i && About(ms, j, u) ==> ms[j].value.state.version < version) && ReadsOk(queries(i))
  {
    var u, version := ms[i].value.state.user, ms[i].value.state.version;
    AcceptedAreStrictMaxima(ms, i);
    assert About(ms, i, u);
    forall k: nat | k < |ms| && About(ms, k, u) && ms[k].value.state.version == version && AcceptedAt(ms, k)
      ensures k == i
    {
      AcceptedAreStrictMaxima(ms, k);
    }
  }

  /** The messages are ones the system published in a run, in whatever order they arrive. */
  ghost predicate FromRun(ms: seq<Option<Message>>, log: seq<Event>) {
    forall j :: 0 <= j < |ms| && WellFormed(ms[j]) ==>
      exists e :: e in log && Published(e) && ms[j].value.state == StateOf(e)
  }

  /** MAIN: message i is the last one accepted about its user. Then its version is the greatest received
      about that user, and its state is the one that version's transition reported. */
  lemma {:induction false} ConvergesToLatestTransition(steps: seq<Step>, ms: seq<Option<Message>>, i: nat, e: Event)
    requires FromRun(ms, Run(INIT, steps).log)
    requires i < |ms| && AcceptedAt(ms, i)
    requires forall j :: i < j < |ms| && About(ms, j, ms[i].value.state.user) ==> !AcceptedAt(ms, j)
    requires e in Run(INIT, steps).log && e.Transition?
    requires e.user == ms[i].value.state.user && e.version == ms[i].value.state.version
    ensures forall j :: About(ms, j, ms[i].value.state.user) ==> ms[j].value.state.version <= ms[i].value.state.version
    ensures ms[i].value.state == StateOf(e) && !ms[i].value.state.online
  {
    hide Run;
    var log, u := Run(INIT, steps).log, ms[i].value.state.user;
    NothingLaterIsNewer(ms, i, |ms|);
    var published :| published in log && Published(published) && ms[i].value.state == StateOf(published);
    PublishedAreOffline(steps, published);
    var a :| 0 <= a < |log| && log[a] == published;
    var b :| 0 <= b < |log| && log[b] == e;
    if a < b {
      VersionsStrictlyIncrease(steps, a, b);
    } else if b < a {
      VersionsStrictlyIncrease(steps, b, a);
    }
  }

  /** Between an accepted message and position k, none about the same user is newer if none was accepted. */
  lemma {:induction false} NothingLaterIsNewer(ms: seq<Option<Message>>, i: nat, k: nat)
    requires i < k <= |ms| && AcceptedAt(ms, i)
    requires forall j :: i < j < k && About(ms, j, ms[i].value.state.user) ==> !AcceptedAt(ms, j)
    ensures forall j :: 0 <= j < k && About(ms, j, ms[i].value.state.user) ==>
      ms[j].value.state.version <= ms[i].value.state.version
    decreases k
  {
    AcceptedAreStrictMaxima(ms, i);
    if i < k - 1 {
      NothingLaterIsNewer(ms, i, k - 1);
      AcceptedAreStrictMaxima(ms, k - 1);
    }
  }
}
