/** The presence store and its four atomic Lua scripts, as functions from one store to the next,
    and the system of servers and sweepers that steps it. */
module LeaseProtocol {
  import opened Common

  type UserId = UUID
  type ConnId = string

  /** A lease set: connection to expiry, in milliseconds. Redis drops a sorted set once it is empty. */
  type Leases = map<ConnId, int>

  /** One field of a Redis hash: absent, the plain digits the scripts write, or other text, of which is kept
      what Lua's tonumber and Go's ParseBool and ParseInt make of it. */
  datatype Field =
    | Missing
    | Number(value: int)
    | Text(number: Option<int>, goBool: Option<bool>, goInt: Option<int>)

  /** tonumber */
  function LuaNumber(field: Field): Option<int> {
    match field
    case Missing => None
    case Number(value) => Some(value)
    case Text(number, _, _) => number
  }

  datatype StateHash = StateHash(online: Field, version: Field)

  datatype Store = Store(
    leases: map<UserId, Leases>,
    deadlines: map<UserId, int>,
    states: map<UserId, StateHash>)

  const EMPTY_STORE := Store(map[], map[], map[])

  /** PresenceGracePeriod in milliseconds */
  const GRACE_MS := 90_000

  /** UnixMilli of Go's zero time, which LeaveLease passes as an expiry nobody reads. */
  const ZERO_TIME_MS := -62_135_596_800_000

  datatype Row = Row(online: bool, version: int)

  datatype LeaseReply = LeaseReply(
    activeCount: nat,
    online: bool,
    transitioned: bool,
    version: int,
    nextDeadline: Option<int>,
    lastSeen: Option<int>)

  const MALFORMED := "PRESENCE_MALFORMED_STATE"
  const INVALID_ACTION := "PRESENCE_INVALID_ACTION"

  /** load_state: an absent key is offline at version 0; a hash lacking a proper field is malformed. */
  function LoadState(st: Store, u: UserId): Result<Row> {
    if u !in st.states then
      Ok(Row(false, 0))
    else
      match (LuaNumber(st.states[u].online), LuaNumber(st.states[u].version))
      case (Some(online), Some(version)) =>
        if online == 0 || online == 1 then Ok(Row(online == 1, version)) else Err(MALFORMED)
      case _ => Err(MALFORMED)
  }

  function SaveState(st: Store, u: UserId, row: Row): Store {
    st.(states := st.states[u := StateHash(Number(if row.online then 1 else 0), Number(row.version))])
  }

  function LeasesOf(st: Store, u: UserId): Leases {
    if u in st.leases then st.leases[u] else map[]
  }

  function SetLeases(st: Store, u: UserId, m: Leases): Store {
    st.(leases := if m == map[] then st.leases - {u} else st.leases[u := m])
  }

  /** ZREMRANGEBYSCORE -inf now */
  function Prune(m: Leases, now: int): Leases {
    map c | c in m && now < m[c] :: m[c]
  }

  /** The top score among some members of a lease set. */
  ghost function TopScore(m: Leases, s: set<ConnId>): (e: int)
    requires s != {} && s <= m.Keys
    ensures exists c :: c in s && m[c] == e
    ensures forall c :: c in s ==> m[c] <= e
  {
    var c :| c in s;
    if s == {c} then m[c] else Max(m[c], TopScore(m, s - {c}))
  }

  /** max_deadline: the top score of a non-empty lease set. */
  ghost function MaxExpiry(m: Leases): (e: int)
    requires m != map[]
    ensures exists c :: c in m && m[c] == e
    ensures forall c :: c in m ==> m[c] <= e
  {
    assert m.Keys != {};
    TopScore(m, m.Keys)
  }

  /** The common tail of the lease-mutation and sweep scripts, entered with user u's lease set
      already updated: reconcile the hash and the deadline index with the number of leases. An
      error reply leaves the store as it is: Redis rolls nothing back. */
  ghost function Settle(st: Store, u: UserId, lastSeenIfOffline: int): (Store, Result<LeaseReply>) {
    match LoadState(st, u)
    case Err(e) => (st, Err(e))
    case Ok(row) =>
      var m := LeasesOf(st, u);
      if m != map[] then
        var row' := if row.online then row else Row(true, row.version + 1);
        var next := MaxExpiry(m);
        (SaveState(st, u, row').(deadlines := st.deadlines[u := next]),
         Ok(LeaseReply(|m|, true, !row.online, row'.version, Some(next), None)))
      else
        var row' := if row.online then Row(false, row.version + 1) else row;
        (SaveState(st, u, row').(deadlines := st.deadlines - {u}),
         Ok(LeaseReply(0, false, row.online, row'.version, None,
                       if row.online then Some(lastSeenIfOffline) else None)))
  }

  /** leaseMutationLua */
  ghost function MutateLease(st: Store, u: UserId, action: string, c: ConnId, expiry: int, now: int)
    : (Store, Result<LeaseReply>)
  {
    var pruned := Prune(LeasesOf(st, u), now);
    if action == "resume" then
      Settle(SetLeases(st, u, pruned[c := expiry]), u, now)
    else if action == "leave" then
      Settle(SetLeases(st, u, pruned - {c}), u, now)
    else
      (SetLeases(st, u, pruned), Err(INVALID_ACTION))
  }

  /** bumpVersionLua */
  function BumpVersion(st: Store, u: UserId): (Store, Result<Row>) {
    match LoadState(st, u)
    case Err(e) => (st, Err(e))
    case Ok(row) =>
      var row' := Row(row.online, row.version + 1);
      (SaveState(st, u, row'), Ok(row'))
  }

  datatype Claim = Claim(user: UserId, dueAt: int)

  /** Redis orders a sorted set by score, then by member text. */
  predicate Before(a: Claim, b: Claim) {
    a.dueAt < b.dueAt || (a.dueAt == b.dueAt && a.user < b.user)
  }

  function Due(d: map<UserId, int>, now: int): set<UserId> {
    set u | u in d && d[u] <= now
  }

  /** The first member of a non-empty part of the deadline index. */
  ghost function Earliest(d: map<UserId, int>, s: set<UserId>): (u: UserId)
    requires s != {} && s <= d.Keys
    ensures u in s
    ensures forall v :: v in s && v != u ==> Before(Claim(u, d[u]), Claim(v, d[v]))
  {
    var v :| v in s;
    if s == {v} then
      v
    else
      var w := Earliest(d, s - {v});
      if Before(Claim(v, d[v]), Claim(w, d[w])) then v else w
  }

  /** ZRANGEBYSCORE -inf now WITHSCORES LIMIT 0 limit */
  ghost function FirstDue(d: map<UserId, int>, now: int, limit: nat): seq<Claim> {
    if limit == 0 || Due(d, now) == {} then
      []
    else
      var u := Earliest(d, Due(d, now));
      [Claim(u, d[u])] + FirstDue(d - {u}, now, limit - 1)
  }

  function Users(rows: seq<Claim>): set<UserId> {
    set i | 0 <= i < |rows| :: rows[i].user
  }

  /** ClaimDueUsers: a limit that is not positive claims nothing; otherwise claimDueUsersLua. */
  ghost function ClaimDueUsers(st: Store, now: int, limit: int): (Store, seq<Claim>) {
    if limit <= 0 then
      (st, [])
    else
      var rows := FirstDue(st.deadlines, now, limit);
      (st.(deadlines := st.deadlines - Users(rows)), rows)
  }

  /** sweepUserLua */
  ghost function SweepUser(st: Store, u: UserId, now: int, dueAt: int): (Store, Result<LeaseReply>) {
    Settle(SetLeases(st, u, Prune(LeasesOf(st, u), now)), u, dueAt)
  }

  /** toNullableTime: zero and negative milliseconds read as no time at all. */
  function NullableTime(ms: Option<int>): Option<int> {
    match ms
    case Some(t) => if t <= 0 then None else Some(t)
    case None => None
  }

  // ---------- The running system ----------

  datatype Origin = ByResume | ByLeave | BySweep

  /** What the scripts report, in the order in which Redis ran them. */
  datatype Event =
    | Transition(user: UserId, version: int, online: bool, lastSeen: Option<int>, origin: Origin)
    | Bumped(user: UserId, version: int)

  /** The store, the claims sweepers hold and have not swept yet, and all reports so far. */
  datatype Sys = Sys(store: Store, claims: multiset<Claim>, log: seq<Event>)

  const INIT := Sys(EMPTY_STORE, multiset{}, [])

  /** One atomic step, with whatever clock reading its caller brought along. */
  datatype Step =
    | Resume(user: UserId, conn: ConnId, now: int)
    | Leave(user: UserId, conn: ConnId, now: int)
    | Bump(user: UserId)
    | ClaimDue(now: int, limit: int)
    | Sweep(claim: Claim, now: int)
      /** A sweeper whose SweepUser call failed logs the error and forgets the claim. */
    | Drop(claim: Claim)

  function Report(u: UserId, origin: Origin, reply: Result<LeaseReply>): seq<Event> {
    if reply.Ok? && reply.value.transitioned then
      [Transition(u, reply.value.version, reply.value.online, NullableTime(reply.value.lastSeen), origin)]
    else
      []
  }

  /** One step. A sweep or a drop of a claim that no sweeper holds does not happen. */
  ghost function Next(s: Sys, step: Step): Sys {
    match step
    case Resume(u, c, now) =>
      var (st, reply) := MutateLease(s.store, u, "resume", c, now + GRACE_MS, now);
      s.(store := st, log := s.log + Report(u, ByResume, reply))
    case Leave(u, c, now) =>
      var (st, reply) := MutateLease(s.store, u, "leave", c, ZERO_TIME_MS, now);
      s.(store := st, log := s.log + Report(u, ByLeave, reply))
    case Bump(u) =>
      var (st, reply) := BumpVersion(s.store, u);
      s.(store := st, log := s.log + if reply.Ok? then [Bumped(u, reply.value.version)] else [])
    case ClaimDue(now, limit) =>
      var (st, rows) := ClaimDueUsers(s.store, now, limit);
      s.(store := st, claims := s.claims + multiset(rows))
    case Sweep(claim, now) =>
      if claim !in s.claims then s else
      var (st, reply) := SweepUser(s.store, claim.user, now, claim.dueAt);
      Sys(st, s.claims - multiset{claim}, s.log + Report(claim.user, BySweep, reply))
    case Drop(claim) =>
      if claim !in s.claims then s else s.(claims := s.claims - multiset{claim})
  }

  ghost function Run(s: Sys, steps: seq<Step>): Sys {
    if steps == [] then s else Next(Run(s, steps[..|steps| - 1]), steps[|steps| - 1])
  }
}
