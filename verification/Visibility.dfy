/** Which presence a viewer gets to see, along the two paths that compute it. */
module Visibility {
  import opened Common
  import opened Governance
  import opened LeaseProtocol
  import opened LeaseInvariants
  import opened VersionAccounting
  import opened PresenceService

  /** The columns loadSubjects reads for one user. */
  datatype Facts = Facts(accountStatus: string, deleted: bool, showActivity: bool, lastSeen: Option<int>)

  /** What the two paths read: user rows, the user_blocks relation (blocker, blocked), and the store. */
  datatype World = World(users: map<UUID, Facts>, blocks: set<(UUID, UUID)>, store: Store)

  /** A user without a row counts as visible, without a status and never seen. */
  function FactsOf(w: World, u: UUID): Facts {
    if u in w.users then w.users[u] else Facts("", false, true, None)
  }

  /** ParseBool */
  function GoBool(field: Field): Option<bool> {
    match field
    case Missing => None
    case Number(value) => if value == 0 || value == 1 then Some(value == 1) else None
    case Text(_, goBool, _) => goBool
  }

  /** ParseInt, to 64 bits */
  function GoInt(field: Field): Option<int> {
    match field
    case Missing => None
    case Number(value) => if -MAX_INT64 - 1 <= value <= MAX_INT64 then Some(value) else None
    case Text(_, _, goInt) => goInt
  }

  /** parseStateHash, which does not read the hash the way the scripts do. */
  function ParseStateHash(st: Store, u: UUID): Result<Row> {
    if u !in st.states then
      Ok(Row(false, 0))
    else
      match (GoBool(st.states[u].online), GoInt(st.states[u].version))
      case (Some(online), Some(version)) => Ok(Row(online, version))
      case _ => Err(MALFORMED)
  }

  /** MAIN: in every reachable store, what the Go code reads of a user is what the scripts read, unless the
      version has outgrown 64 bits; only then is the read refused. */
  lemma {:induction false} ReadsAgree(steps: seq<Step>, u: UUID)
    ensures var st := Run(INIT, steps).store;
      && LoadState(st, u).Ok?
      && (ParseStateHash(st, u).Ok? <==> LoadState(st, u).value.version <= MAX_INT64)
      && (ParseStateHash(st, u).Ok? ==> ParseStateHash(st, u) == LoadState(st, u))
  {
    AlwaysIndexed(steps);
    AlwaysDigits(steps);
    assert UserIndexed(Run(INIT, steps).store, u);
  }

  /** What the Go code makes of a hash of plain digits, and of one that lacks a field. */
  lemma GoReads(st: Store, u: UUID)
    ensures u !in st.states ==> ParseStateHash(st, u) == Ok(Row(false, 0))
    ensures u in st.states && (st.states[u].online.Missing? || st.states[u].version.Missing?) ==>
      ParseStateHash(st, u) == Err(MALFORMED)
    ensures forall online, version :: u in st.states && st.states[u] == StateHash(Number(online), Number(version)) ==>
      (ParseStateHash(st, u).Ok? <==> online in {0, 1} && -0x8000_0000_0000_0000 <= version <= 0x7FFF_FFFF_FFFF_FFFF) &&
      (ParseStateHash(st, u).Ok? ==> ParseStateHash(st, u).value == Row(online == 1, version))
  {
  }

  /** They do not read every hash alike: text like "true" is online to one and malformed to the other. */
  lemma ReadsDiffer(st: Store, u: UUID, version: int)
    requires -MAX_INT64 - 1 <= version <= MAX_INT64
    requires u in st.states && st.states[u] == StateHash(Text(None, Some(true), None), Number(version))
    ensures ParseStateHash(st, u) == Ok(Row(true, version)) && LoadState(st, u) == Err(MALFORMED)
  {
  }

  /** GetStatesBatch for one user: the hash carries no last-seen time. */
  function StoredState(w: World, u: UUID): Result<State> {
    match ParseStateHash(w.store, u)
    case Ok(row) => Ok(State(u, row.online, None, row.version))
    case Err(e) => Err(e)
  }

  /** Whether the three reads of a request succeed: user rows, hashes, blocks. */
  datatype Queries = Queries(factsOk: bool, storeOk: bool, blocksOk: bool)

  datatype Subject = Subject(facts: Facts, blocked: bool, state: State)

  /** visibleStateForViewer. The subject's own version is never loaded and always 0, so the fallback
      to it changes nothing and is left out. */
  function VisibleState(viewer: UUID, target: UUID, subject: Subject): State {
    var state := if subject.state.user == NIL_UUID then subject.state.(user := target) else subject.state;
    var seen := LastSeenOf(subject);
    if viewer == target then
      state.(lastSeen := seen)
    else if Restricted(subject) then
      State(target, false, None, state.version)
    else
      state.(lastSeen := seen, user := target)
  }

  /** The time of the state itself if it has one, else the durable time. */
  function LastSeenOf(subject: Subject): Option<int> {
    if subject.state.lastSeen.None? then subject.facts.lastSeen else subject.state.lastSeen
  }

  /** The subject's account is not active, a block stands between the two, or activity is hidden. */
  predicate Restricted(subject: Subject) {
    || CoarsenLifecycle(subject.facts.accountStatus, subject.facts.deleted) != Active
    || subject.blocked
    || !subject.facts.showActivity
  }

  predicate StrictlyAscending(ids: seq<UUID>) {
    forall i, j :: 0 <= i < j < |ids| ==> ids[i] < ids[j]
  }

  /** sort.Slice on a duplicate-free list */
  method Sort(ids: set<UUID>) returns (out: seq<UUID>)
    ensures StrictlyAscending(out)
    ensures forall id :: id in out <==> id in ids
  {
    var rest := ids;
    out := [];
    while rest != {}
      invariant rest <= ids
      invariant StrictlyAscending(out)
      invariant forall id :: id in out <==> id in ids && id !in rest
      invariant forall i, id :: 0 <= i < |out| && id in rest ==> out[i] < id
    {
      var least := Least(rest);
      assert forall id :: id in out + [least] <==> id in out || id == least;
      out := out + [least];
      rest := rest - {least};
    }
  }

  method Least(ids: set<UUID>) returns (least: UUID)
    requires ids != {}
    ensures least in ids && forall id :: id in ids ==> least <= id
  {
    least :| least in ids;
    var rest := ids - {least};
    while rest != {}
      invariant rest <= ids && least in ids
      invariant forall id :: id in ids && id !in rest ==> least <= id
    {
      var id :| id in rest;
      rest := rest - {id};
      if id < least {
        least := id;
      }
    }
  }

  method DedupeAndSort(ids: seq<UUID>) returns (out: seq<UUID>)
    ensures StrictlyAscending(out)
    ensures forall id :: id in out <==> id in ids && id != NIL_UUID
  {
    var seen: set<UUID> := {};
    var i := 0;
    while i < |ids|
      invariant 0 <= i <= |ids|
      invariant forall id :: id in seen <==> id in ids[..i] && id != NIL_UUID
    {
      if ids[i] != NIL_UUID && ids[i] !in seen {
        seen := seen + {ids[i]};
      }
      i := i + 1;
    }
    assert ids[..i] == ids;
    out := Sort(seen);
  }

  predicate BlockedEitherWay(w: World, a: UUID, b: UUID) {
    (a, b) in w.blocks || (b, a) in w.blocks
  }

  /** blockedSet: the rows between one user and some others, reduced to the other party. */
  method BlockedSet(w: World, one: UUID, others: seq<UUID>) returns (blocked: set<UUID>)
    ensures one != NIL_UUID ==> forall id :: id in blocked <==> id in others && BlockedEitherWay(w, one, id)
    ensures one == NIL_UUID ==> blocked == {}
  {
    blocked := {};
    if one == NIL_UUID || |others| == 0 {
      return;
    }
    var rows := set row | row in w.blocks && ((row.0 == one && row.1 in others) || (row.0 in others && row.1 == one));
    ghost var all := rows;
    while rows != {}
      invariant rows <= all
      invariant forall id :: id in blocked <==>
        exists row :: row in all - rows && id == if row.0 == one then row.1 else row.0
    {
      var row :| row in rows;
      rows := rows - {row};
      blocked := blocked + {if row.0 == one then row.1 else row.0};
    }
    forall id ensures id in blocked <==> id in others && BlockedEitherWay(w, one, id) {
      if id in others && (one, id) in w.blocks {
        assert (one, id) in all;
      } else if id in others && (id, one) in w.blocks {
        assert (id, one) in all;
      }
    }
  }

  /** The entry for target in viewer's snapshot, with the block looked up from the viewer's side. */
  function SnapshotEntry(w: World, viewer: UUID, target: UUID): State
    requires StoredState(w, target).Ok?
  {
    VisibleState(viewer, target,
      Subject(FactsOf(w, target), viewer != NIL_UUID && BlockedEitherWay(w, viewer, target),
              StoredState(w, target).value))
  }

  /** What a viewer gets when target's state is fanned out, with the block looked up from the target's side. */
  function FanOutEntry(w: World, target: UUID, viewer: UUID, canonical: State): State {
    VisibleState(viewer, target,
      Subject(FactsOf(w, target), target != NIL_UUID && BlockedEitherWay(w, target, viewer), canonical))
  }

  /** GetStatesBatch */
  method GetStatesBatch(w: World, ids: seq<UUID>, storeOk: bool) returns (r: Result<map<UUID, State>>)
    ensures r.Ok? <==> ids == [] || (storeOk && forall t :: t in ids ==> StoredState(w, t).Ok?)
    ensures r.Ok? ==> forall t :: t in ids ==> t in r.value && r.value[t] == StoredState(w, t).value
    ensures r.Ok? ==> forall t :: t in ids ==> StoredState(w, t).Ok?
  {
    hide StoredState;
    var states: map<UUID, State> := map[];
    if |ids| == 0 {
      return Ok(states);
    }
    if !storeOk {
      return Err("presence get states batch");
    }
    var i := 0;
    while i < |ids|
      invariant 0 <= i <= |ids|
      invariant forall t :: t in ids[..i] ==>
        StoredState(w, t).Ok? && t in states && states[t] == StoredState(w, t).value
    {
      var stored := StoredState(w, ids[i]);
      if stored.Err? {
        return Err(stored.message);
      }
      states := states[ids[i] := stored.value];
      i := i + 1;
    }
    assert ids[..i] == ids;
    r := Ok(states);
  }

  lemma EntryIsAbout(w: World, viewer: UUID, target: UUID)
    requires StoredState(w, target).Ok?
    ensures SnapshotEntry(w, viewer, target).user == target
  {
  }

  /** The snapshot of some targets: the non-nil ones, each once and in id order, each with its entry. */
  ghost predicate IsSnapshot(w: World, viewer: UUID, targetIDs: seq<UUID>, states: seq<State>) {
    && (forall i, j :: 0 <= i < j < |states| ==> states[i].user < states[j].user)
    && (forall t :: t in targetIDs && t != NIL_UUID ==> StoredState(w, t).Ok? && SnapshotEntry(w, viewer, t) in states)
    && (forall state :: state in states ==>
          state.user in targetIDs && state.user != NIL_UUID && StoredState(w, state.user).Ok? &&
          state == SnapshotEntry(w, viewer, state.user))
  }

  /** The fan-out of a target's state: an entry for each non-nil viewer. */
  ghost predicate IsFanOut(w: World, target: UUID, viewerIDs: seq<UUID>, canonical: State, shown: map<UUID, State>) {
    && (forall v :: v in shown <==> v in viewerIDs && v != NIL_UUID)
    && (forall v :: v in shown ==> shown[v] == FanOutEntry(w, target, v, canonical))
  }

  predicate AllNil(ids: seq<UUID>) {
    forall id :: id in ids ==> id == NIL_UUID
  }

  /** Entries of the non-nil ids, each once and in order, are a snapshot. */
  lemma EntriesAreSnapshot(w: World, viewer: UUID, targetIDs: seq<UUID>, ids: seq<UUID>, states: seq<State>)
    requires StrictlyAscending(ids) && forall id :: id in ids <==> id in targetIDs && id != NIL_UUID
    requires forall t :: t in ids ==> StoredState(w, t).Ok?
    requires |states| == |ids|
    requires forall j :: 0 <= j < |ids| ==> ids[j] in ids && states[j] == SnapshotEntry(w, viewer, ids[j])
    ensures IsSnapshot(w, viewer, targetIDs, states)
  {
    hide StoredState, SnapshotEntry;
    forall j | 0 <= j < |ids| ensures states[j].user == ids[j] {
      EntryIsAbout(w, viewer, ids[j]);
    }
    forall t | t in targetIDs && t != NIL_UUID ensures SnapshotEntry(w, viewer, t) in states {
      assert t in ids;
      var j :| 0 <= j < |ids| && ids[j] == t;
      assert states[j] in states;
    }
  }

  /** BuildSnapshot: an error exactly if there is something to show and a read fails or a stored hash is
      malformed; blocks are not read for an anonymous viewer. */
  method BuildSnapshot(w: World, viewer: UUID, targetIDs: seq<UUID>, queries: Queries) returns (r: Result<seq<State>>)
    ensures r.Ok? <==>
      AllNil(targetIDs) ||
      (queries.factsOk && queries.storeOk && (viewer == NIL_UUID || queries.blocksOk) &&
       forall t :: t in targetIDs && t != NIL_UUID ==> StoredState(w, t).Ok?)
    ensures r.Ok? ==> IsSnapshot(w, viewer, targetIDs, r.value)
  {
    hide StoredState, VisibleState, IsSnapshot;
    var ids := DedupeAndSort(targetIDs);
    if |ids| == 0 {
      EntriesAreSnapshot(w, viewer, targetIDs, ids, []);
      return Ok([]);
    }
    assert ids[0] in targetIDs && ids[0] != NIL_UUID;
    if !queries.factsOk {
      return Err("presence load subjects");
    }
    var redisStates := GetStatesBatch(w, ids, queries.storeOk);
    if redisStates.Err? {
      return Err(redisStates.message);
    }
    if viewer != NIL_UUID && !queries.blocksOk {
      return Err("presence blocked set");
    }
    var blocked := BlockedSet(w, viewer, ids);
    var states: seq<State> := [];
    var i := 0;
    while i < |ids|
      invariant 0 <= i <= |ids| && |states| == i
      invariant forall j :: 0 <= j < i ==> ids[j] in ids && states[j] == SnapshotEntry(w, viewer, ids[j])
    {
      var t := ids[i];
      assert t in ids;
      states := states + [VisibleState(viewer, t, Subject(FactsOf(w, t), t in blocked, redisStates.value[t]))];
      i := i + 1;
    }
    EntriesAreSnapshot(w, viewer, targetIDs, ids, states);
    r := Ok(states);
  }

  /** ResolveVisibleStatesForTarget: an error exactly if there is somebody to show it to and a read fails. */
  method ResolveVisibleStatesForTarget(w: World, target: UUID, viewerIDs: seq<UUID>, canonical: State, queries: Queries)
    returns (r: Result<map<UUID, State>>)
    ensures r.Ok? <==> AllNil(viewerIDs) || (queries.factsOk && (target == NIL_UUID || queries.blocksOk))
    ensures r.Ok? ==> IsFanOut(w, target, viewerIDs, canonical, r.value)
  {
    var ids := DedupeAndSort(viewerIDs);
    var result: map<UUID, State> := map[];
    if |ids| == 0 {
      return Ok(result);
    }
    assert ids[0] in viewerIDs && ids[0] != NIL_UUID;
    if !queries.factsOk {
      return Err("presence load subjects");
    }
    var facts := FactsOf(w, target);
    if target != NIL_UUID && !queries.blocksOk {
      return Err("presence blocked set");
    }
    var blocked := BlockedSet(w, target, ids);
    var i := 0;
    while i < |ids|
      invariant 0 <= i <= |ids|
      invariant forall v :: v in result <==> v in ids[..i]
      invariant forall v :: v in result ==> result[v] == FanOutEntry(w, target, v, canonical)
    {
      result := result[ids[i] := VisibleState(ids[i], target, Subject(facts, ids[i] in blocked, canonical))];
      i := i + 1;
    }
    assert ids[..i] == ids;
    r := Ok(result);
  }

  /** The block looked up from the viewer's side and from the target's side is the same. */
  lemma PathsAgree(w: World, viewer: UUID, target: UUID)
    requires viewer != NIL_UUID && target != NIL_UUID && StoredState(w, target).Ok?
    ensures SnapshotEntry(w, viewer, target) == FanOutEntry(w, target, viewer, StoredState(w, target).value)
  {
    assert BlockedEitherWay(w, viewer, target) == BlockedEitherWay(w, target, viewer);
  }

  /** For the same stored state, a viewer's snapshot holds exactly one state of the target, and it is the one the
      fan-out gives that viewer, although the two look the block up from opposite ends. */
  lemma SnapshotMatchesFanOut(w: World, viewer: UUID, target: UUID, targetIDs: seq<UUID>, viewerIDs: seq<UUID>,
                              states: seq<State>, shown: map<UUID, State>)
    requires viewer in viewerIDs && target in targetIDs && viewer != NIL_UUID && target != NIL_UUID
    requires IsSnapshot(w, viewer, targetIDs, states)
    requires StoredState(w, target).Ok? && IsFanOut(w, target, viewerIDs, StoredState(w, target).value, shown)
    ensures viewer in shown && shown[viewer] in states
    ensures forall state :: state in states && state.user == target ==> state == shown[viewer]
  {
    PathsAgree(w, viewer, target);
  }

  // ---------- What the entries of two worlds tell apart ----------

  /** The target's account is not active, a block stands between the two, or activity is hidden. */
  predicate Barred(w: World, viewer: UUID, target: UUID) {
    && viewer != target
    && (|| CoarsenLifecycle(FactsOf(w, target).accountStatus, FactsOf(w, target).deleted) != Active
        || (viewer != NIL_UUID && target != NIL_UUID && BlockedEitherWay(w, viewer, target))
        || !FactsOf(w, target).showActivity)
  }

  lemma BarredIff(w: World, viewer: UUID, target: UUID)
    ensures Barred(w, viewer, target) <==>
      && viewer != target
      && (|| (target in w.users &&
              (w.users[target].deleted || !w.users[target].showActivity ||
               w.users[target].accountStatus in {"deleted", "removed", "suspended", "banned"}))
          || (viewer != 0 && target != 0 && ((viewer, target) in w.blocks || (target, viewer) in w.blocks)))
  {
  }

  /** What the database alone says of when a user was last seen. */
  function DurableTime(w: World, u: UUID): Option<int> {
    if u in w.users then w.users[u].lastSeen else None
  }

  /** MAIN: what a snapshot shows of each of its users: always the stored version; to a barred viewer nobody is
      online and no time is given; to everybody else the stored online flag and the durable time. */
  lemma SnapshotShows(w: World, viewer: UUID, targetIDs: seq<UUID>, states: seq<State>, state: State)
    requires IsSnapshot(w, viewer, targetIDs, states) && state in states
    ensures ParseStateHash(w.store, state.user).Ok?
    ensures var row := ParseStateHash(w.store, state.user).value;
      && state.version == row.version
      && (if Barred(w, viewer, state.user) then !state.online && state.lastSeen == None
          else state.online == row.online && state.lastSeen == DurableTime(w, state.user))
  {
    hide ParseStateHash, CoarsenLifecycle;
  }

  /** MAIN: and what the fan-out of a state shows a viewer: its version; to a barred viewer nothing else, to
      everybody else its online flag and its own time, or the durable one if it has none. */
  lemma FanOutShows(w: World, target: UUID, viewerIDs: seq<UUID>, canonical: State, shown: map<UUID, State>,
                    viewer: UUID)
    requires IsFanOut(w, target, viewerIDs, canonical, shown) && viewer in viewerIDs && viewer != NIL_UUID
    ensures viewer in shown
    ensures shown[viewer].version == canonical.version
    ensures shown[viewer].user == if viewer == target && canonical.user != 0 then canonical.user else target
    ensures if Barred(w, viewer, target) then !shown[viewer].online && shown[viewer].lastSeen == None
      else
        && shown[viewer].online == canonical.online
        && shown[viewer].lastSeen == if canonical.lastSeen.Some? then canonical.lastSeen else DurableTime(w, target)
  {
    hide CoarsenLifecycle;
  }

  /** The database is the same in both worlds, up to the target's durable last-seen time. */
  ghost predicate SameDatabase(a: World, b: World, target: UUID) {
    && a.blocks == b.blocks
    && (forall u :: FactsOf(a, u).(lastSeen := None) == FactsOf(b, u).(lastSeen := None))
    && (forall u :: u != target ==> FactsOf(a, u) == FactsOf(b, u))
  }

  /** The two worlds agree on everything but the target's presence: its stored state and its durable time. */
  ghost predicate AgreeElsewhere(a: World, b: World, target: UUID) {
    && SameDatabase(a, b, target)
    && (forall u :: u != target ==> StoredState(a, u) == StoredState(b, u))
    && StoredState(a, target).Ok? && StoredState(b, target).Ok?
  }

  /** A restricted viewer is shown the version and nothing else that varies; anybody else is shown the online flag
      and the last-seen time as well. */
  lemma ShownAlikeIff(viewer: UUID, target: UUID, a: Subject, b: Subject)
    requires a.facts.(lastSeen := None) == b.facts.(lastSeen := None) && a.blocked == b.blocked
    requires a.state.user == b.state.user
    ensures VisibleState(viewer, target, a) == VisibleState(viewer, target, b) <==>
      && a.state.version == b.state.version
      && ((viewer != target && Restricted(a)) ||
          (a.state.online == b.state.online && LastSeenOf(a) == LastSeenOf(b)))
  {
  }

  /** Snapshot entries of two such worlds are equal for everybody but the target. */
  lemma EntryAlikeIff(a: World, b: World, viewer: UUID, target: UUID, t: UUID)
    requires AgreeElsewhere(a, b, target) && t != NIL_UUID && StoredState(a, t).Ok?
    ensures StoredState(b, t).Ok?
    ensures SnapshotEntry(a, viewer, t) == SnapshotEntry(b, viewer, t) <==> t != target || TargetAlike(a, b, viewer, t)
  {
    assert FactsOf(a, t).(lastSeen := None) == FactsOf(b, t).(lastSeen := None);
    var blocked := viewer != NIL_UUID && BlockedEitherWay(a, viewer, t);
    ShownAlikeIff(viewer, t, Subject(FactsOf(a, t), blocked, StoredState(a, t).value),
                  Subject(FactsOf(b, t), blocked, StoredState(b, t).value));
  }

  /** The target's version is the same in both worlds, and so are its online flag and its durable time unless the
      viewer is barred. */
  predicate TargetAlike(a: World, b: World, viewer: UUID, target: UUID)
    requires StoredState(a, target).Ok? && StoredState(b, target).Ok?
  {
    var x, y := StoredState(a, target).value, StoredState(b, target).value;
    && x.version == y.version
    && (Barred(a, viewer, target) ||
        (x.online == y.online && FactsOf(a, target).lastSeen == FactsOf(b, target).lastSeen))
  }

  lemma {:induction false} AscendingUnique(x: seq<UUID>, y: seq<UUID>)
    requires StrictlyAscending(x) && StrictlyAscending(y) && forall id :: id in x <==> id in y
    ensures x == y
  {
    assert |x| > 0 ==> x[0] in x && x[0] in y;
    assert |y| > 0 ==> y[0] in y && y[0] in x;
    if x != [] && y != [] {
      var n, m := |x| - 1, |y| - 1;
      assert x[n] in x && x[n] in y && y[m] in y && y[m] in x;
      assert x[n] == y[m];
      forall id ensures id in x[..n] <==> id in x && id != x[n] {}
      forall id ensures id in y[..m] <==> id in y && id != y[m] {}
      AscendingUnique(x[..n], y[..m]);
    }
  }

  function UsersOf(states: seq<State>): seq<UUID> {
    seq(|states|, i requires 0 <= i < |states| => states[i].user)
  }

  /** The users of a snapshot, in order, are determined by the ids that were asked for. */
  lemma SnapshotUsers(w: World, viewer: UUID, targetIDs: seq<UUID>, states: seq<State>)
    requires IsSnapshot(w, viewer, targetIDs, states)
    ensures StrictlyAscending(UsersOf(states))
    ensures forall id :: id in UsersOf(states) <==> id in targetIDs && id != NIL_UUID
  {
    hide StoredState, VisibleState;
    forall id | id in UsersOf(states) ensures id in targetIDs && id != NIL_UUID {
      var i :| 0 <= i < |states| && states[i].user == id;
      assert states[i] in states;
    }
    forall id | id in targetIDs && id != NIL_UUID ensures id in UsersOf(states) {
      EntryIsAbout(w, viewer, id);
      var i :| 0 <= i < |states| && states[i] == SnapshotEntry(w, viewer, id);
      assert UsersOf(states)[i] == id;
    }
  }

  /** Two snapshots of the same ids list the same users in the same order. */
  lemma SnapshotsAligned(a: World, b: World, viewer: UUID, targetIDs: seq<UUID>, x: seq<State>, y: seq<State>)
    requires IsSnapshot(a, viewer, targetIDs, x) && IsSnapshot(b, viewer, targetIDs, y)
    ensures |x| == |y| && forall i :: 0 <= i < |x| ==> x[i].user == y[i].user && x[i].user != NIL_UUID
    ensures forall i :: 0 <= i < |x| ==> x[i].user in targetIDs
  {
    hide IsSnapshot;
    SnapshotUsers(a, viewer, targetIDs, x);
    SnapshotUsers(b, viewer, targetIDs, y);
    AscendingUnique(UsersOf(x), UsersOf(y));
    assert |x| == |UsersOf(x)| && |y| == |UsersOf(y)|;
    forall i | 0 <= i < |x| ensures x[i].user == y[i].user && x[i].user != NIL_UUID && x[i].user in targetIDs {
      assert UsersOf(x)[i] == UsersOf(y)[i] && UsersOf(x)[i] in UsersOf(x);
    }
  }

  lemma SnapshotsAlike(a: World, b: World, viewer: UUID, target: UUID, targetIDs: seq<UUID>, x: seq<State>,
                       y: seq<State>)
    requires AgreeElsewhere(a, b, target) && (target in targetIDs ==> TargetAlike(a, b, viewer, target))
    requires IsSnapshot(a, viewer, targetIDs, x) && IsSnapshot(b, viewer, targetIDs, y)
    ensures x == y
  {
    hide StoredState, SnapshotEntry, TargetAlike, AgreeElsewhere;
    SnapshotsAligned(a, b, viewer, targetIDs, x, y);
    forall i | 0 <= i < |x| ensures x[i] == y[i] {
      assert x[i] in x && y[i] in y;
      EntryAlikeIff(a, b, viewer, target, x[i].user);
    }
  }

  lemma AlikeIfSnapshotsEqual(a: World, b: World, viewer: UUID, target: UUID, targetIDs: seq<UUID>, x: seq<State>)
    requires AgreeElsewhere(a, b, target) && target != NIL_UUID && target in targetIDs
    requires IsSnapshot(a, viewer, targetIDs, x) && IsSnapshot(b, viewer, targetIDs, x)
    ensures TargetAlike(a, b, viewer, target)
  {
    hide StoredState, SnapshotEntry, TargetAlike, AgreeElsewhere;
    EntryAlikeIff(a, b, viewer, target, target);
    EntryIsAbout(a, viewer, target);
    EntryIsAbout(b, viewer, target);
    assert SnapshotEntry(b, viewer, target) in x && SnapshotEntry(b, viewer, target).user == target;
  }

  /** MAIN: in two worlds that agree on everything but the target's presence, a viewer's whole snapshots are equal
      if and only if the target was not asked for, or has the same version in both and, unless the viewer is barred
      from it, the same online flag and durable time. So being barred hides the time, but not the version. */
  lemma SnapshotsEqualIff(a: World, b: World, viewer: UUID, target: UUID, targetIDs: seq<UUID>, x: seq<State>,
                          y: seq<State>)
    requires AgreeElsewhere(a, b, target) && target != NIL_UUID
    requires IsSnapshot(a, viewer, targetIDs, x) && IsSnapshot(b, viewer, targetIDs, y)
    ensures x == y <==> (target in targetIDs ==> TargetAlike(a, b, viewer, target))
  {
    hide StoredState, IsSnapshot, TargetAlike, SameDatabase;
    if target in targetIDs ==> TargetAlike(a, b, viewer, target) {
      SnapshotsAlike(a, b, viewer, target, targetIDs, x, y);
    } else if x == y {
      AlikeIfSnapshotsEqual(a, b, viewer, target, targetIDs, x);
    }
  }

  /** MAIN: and what the fan-out of two states of the target shows a viewer is equal if and only if the states have
      the same version and, unless the viewer is barred, the same online flag and time. */
  lemma FanOutsEqualIff(a: World, b: World, viewer: UUID, target: UUID, viewerIDs: seq<UUID>, before: State,
                        after: State, x: map<UUID, State>, y: map<UUID, State>)
    requires SameDatabase(a, b, target) && target != NIL_UUID && before.user == after.user
    requires IsFanOut(a, target, viewerIDs, before, x) && IsFanOut(b, target, viewerIDs, after, y)
    requires viewer in viewerIDs && viewer != NIL_UUID
    ensures x[viewer] == y[viewer] <==>
      && before.version == after.version
      && (Barred(a, viewer, target) ||
          var earlier, later := Subject(FactsOf(a, target), false, before), Subject(FactsOf(b, target), false, after);
          before.online == after.online && LastSeenOf(earlier) == LastSeenOf(later))
  {
    var blocked := BlockedEitherWay(a, target, viewer);
    ShownAlikeIff(viewer, target, Subject(FactsOf(a, target), blocked, before),
                  Subject(FactsOf(b, target), blocked, after));
  }

  // ---------- What a version tells of a run ----------

  /** The store of w is what some steps have made of the empty one. */
  ghost predicate StoreAfter(w: World, steps: seq<Step>) {
    w.store == Run(INIT, steps).store
  }

  lemma {:induction false} StoredVersion(w: World, steps: seq<Step>, u: UUID)
    requires StoreAfter(w, steps) && StoredState(w, u).Ok?
    ensures var log := Run(INIT, steps).log;
      && StoredState(w, u).value.version == |Transitions(log, u)| + Bumps(log, u)
      && (StoredState(w, u).value.online <==> |Transitions(log, u)| % 2 == 1)
  {
    hide Run;
    AlwaysAccounted(steps);
    assert UserAccounted(Run(INIT, steps), u);
    ReadsAgree(steps, u);
  }

  predicate NeverBumped(steps: seq<Step>, u: UUID) {
    forall i :: 0 <= i < |steps| ==> !(steps[i].Bump? && steps[i].user == u)
  }

  /** A step adds at most one event to the log, and a bump of a user only if that is the step. */
  lemma NextLog(s: Sys, step: Step)
    ensures var log := Next(s, step).log;
      log == s.log ||
      (|log| == |s.log| + 1 && log == s.log + [log[|s.log|]] &&
       (log[|s.log|].Bumped? ==> step == Bump(log[|s.log|].user)))
  {
    hide Settle, LoadState, MutateLease, SweepUser, BumpVersion, ClaimDueUsers;
    match step
    case Resume(_, _, _) =>
    case Leave(_, _, _) =>
    case Bump(_) =>
    case ClaimDue(_, _) =>
    case Sweep(_, _) =>
    case Drop(_) =>
  }

  lemma {:induction false} StepWithoutBump(s: Sys, step: Step, u: UUID)
    requires !(step.Bump? && step.user == u)
    ensures Bumps(Next(s, step).log, u) == Bumps(s.log, u)
  {
    NextLog(s, step);
    hide Next, Bumps;
    var log := Next(s, step).log;
    if log != s.log {
      LogGrows(s.log, log[|s.log|], u);
    }
  }

  lemma {:induction false} NoBumps(steps: seq<Step>, u: UUID)
    requires NeverBumped(steps, u)
    ensures Bumps(Run(INIT, steps).log, u) == 0
  {
    hide Next;
    if steps != [] {
      var n := |steps| - 1;
      NoBumps(steps[..n], u);
      StepWithoutBump(Run(INIT, steps[..n]), steps[n], u);
    }
  }

  /** MAIN: after any run, what a barred viewer's snapshot shows of the target says offline and carries no time, but
      its version, less the target's bumps, is odd if and only if the target is online. */
  lemma {:induction false} BarredVersionTellsPresence(steps: seq<Step>, w: World, viewer: UUID, target: UUID)
    requires StoreAfter(w, steps) && StoredState(w, target).Ok? && Barred(w, viewer, target)
    ensures var shown := SnapshotEntry(w, viewer, target);
      && !shown.online && shown.lastSeen.None?
      && ((shown.version - Bumps(Run(INIT, steps).log, target)) % 2 == 1 <==> StoredState(w, target).value.online)
  {
    hide Run, ParseStateHash;
    StoredVersion(w, steps, target);
  }

  /** MAIN: nothing in the program bumps a version, and after a run without bumps of the target a barred viewer's
      entry has an odd version if and only if the target is online. */
  lemma BarredParityIsPresence(steps: seq<Step>, w: World, viewer: UUID, target: UUID)
    requires StoreAfter(w, steps) && StoredState(w, target).Ok? && Barred(w, viewer, target)
    requires NeverBumped(steps, target)
    ensures SnapshotEntry(w, viewer, target).version % 2 == 1 <==> StoredState(w, target).value.online
  {
    hide Run, StoredState, SnapshotEntry, Barred;
    NoBumps(steps, target);
    BarredVersionTellsPresence(steps, w, viewer, target);
  }

  /** MAIN: two worlds, reached by runs that bump the target equally often, agree on everything but the target's
      presence. Then a barred viewer who asks for the target gets equal snapshots if and only if the versions are
      equal, and no viewer at all gets equal snapshots when the target is online in one of them only. */
  lemma {:induction false} EqualSnapshotsEqualPresence(sa: seq<Step>, sb: seq<Step>, a: World, b: World, viewer: UUID,
                                                       target: UUID, targetIDs: seq<UUID>, x: seq<State>,
                                                       y: seq<State>)
    requires StoreAfter(a, sa) && StoreAfter(b, sb)
    requires Bumps(Run(INIT, sa).log, target) == Bumps(Run(INIT, sb).log, target)
    requires AgreeElsewhere(a, b, target) && target != NIL_UUID && target in targetIDs
    requires IsSnapshot(a, viewer, targetIDs, x) && IsSnapshot(b, viewer, targetIDs, y)
    ensures Barred(a, viewer, target) ==>
      (x == y <==> StoredState(a, target).value.version == StoredState(b, target).value.version)
    ensures x == y ==> StoredState(a, target).value.online == StoredState(b, target).value.online
  {
    hide Run, StoredState, Barred, SameDatabase, IsSnapshot;
    SnapshotsEqualIff(a, b, viewer, target, targetIDs, x, y);
    StoredVersion(a, sa, target);
    StoredVersion(b, sb, target);
  }

  /** The log only ever grows. */
  lemma {:induction false} LogOfPrefix(steps: seq<Step>, i: nat)
    requires i <= |steps|
    ensures Run(INIT, steps[..i]).log <= Run(INIT, steps).log
    decreases |steps|
  {
    hide Next;
    if i == |steps| {
      assert steps[..i] == steps;
    } else {
      var n := |steps| - 1;
      LogOfPrefix(steps[..n], i);
      assert steps[..n][..i] == steps[..i];
      NextLog(Run(INIT, steps[..n]), steps[n]);
    }
  }

  /** Every event counts, be it a transition or a bump. */
  lemma {:induction false} CountsSameIff(log: seq<Event>, i: nat, j: nat, u: UserId)
    requires i <= j <= |log|
    ensures |Transitions(log[..i], u)| + Bumps(log[..i], u) == |Transitions(log[..j], u)| + Bumps(log[..j], u) <==>
      forall k :: i <= k < j ==> log[k].user != u
    decreases j
  {
    if i < j {
      CountsSameIff(log, i, j - 1, u);
      CountsGrow(log, i, j - 1, u);
      assert log[..j] == log[..j - 1] + [log[j - 1]];
      LogGrows(log[..j - 1], log[j - 1], u);
    }
  }

  /** MAIN: a barred viewer who asks again later in the same run, everything else being unchanged, gets the same
      snapshot if and only if the system has reported no event of the target in between. */
  lemma {:induction false} SnapshotsBetweenEvents(steps: seq<Step>, i: nat, a: World, b: World, viewer: UUID,
                                                  target: UUID, targetIDs: seq<UUID>, x: seq<State>, y: seq<State>)
    requires i <= |steps| && StoreAfter(a, steps[..i]) && StoreAfter(b, steps)
    requires AgreeElsewhere(a, b, target) && target != NIL_UUID && target in targetIDs
    requires IsSnapshot(a, viewer, targetIDs, x) && IsSnapshot(b, viewer, targetIDs, y) && Barred(a, viewer, target)
    ensures var log := Run(INIT, steps).log;
      x == y <==> forall k :: |Run(INIT, steps[..i]).log| <= k < |log| ==> log[k].user != target
  {
    hide Run, StoredState, Barred, SameDatabase, IsSnapshot, Transitions, Bumps;
    var log, n := Run(INIT, steps).log, |Run(INIT, steps[..i]).log|;
    SnapshotsEqualIff(a, b, viewer, target, targetIDs, x, y);
    StoredVersion(a, steps[..i], target);
    StoredVersion(b, steps, target);
    LogOfPrefix(steps, i);
    assert log[..|log|] == log && log[..n] == Run(INIT, steps[..i]).log;
    CountsSameIff(log, n, |log|, target);
  }

  /** MAIN: the fan-outs of two different transitions of one user never show any viewer the same. */
  lemma {:induction false} FanOutsOfTransitionsDiffer(steps: seq<Step>, i: nat, j: nat, a: World, b: World,
                                                      viewer: UUID, viewerIDs: seq<UUID>, x: map<UUID, State>,
                                                      y: map<UUID, State>)
    requires var log := Run(INIT, steps).log;
      && i < j < |log| && log[i].Transition? && log[j].Transition? && log[i].user == log[j].user != NIL_UUID
      && SameDatabase(a, b, log[i].user)
      && IsFanOut(a, log[i].user, viewerIDs, StateOf(log[i]), x)
      && IsFanOut(b, log[i].user, viewerIDs, StateOf(log[j]), y)
    requires viewer in viewerIDs && viewer != NIL_UUID
    ensures x[viewer] != y[viewer]
  {
    hide Run, IsFanOut, SameDatabase;
    var log := Run(INIT, steps).log;
    VersionsStrictlyIncrease(steps, i, j);
    FanOutsEqualIff(a, b, viewer, log[i].user, viewerIDs, StateOf(log[i]), StateOf(log[j]), x, y);
  }

  /** One resume takes a barred viewer's entry from version 0 to version 1. */
  lemma ResumeShows(users: map<UUID, Facts>, blocks: set<(UUID, UUID)>, viewer: UUID, target: UUID, conn: ConnId)
    requires Barred(World(users, blocks, EMPTY_STORE), viewer, target)
    ensures var w := World(users, blocks, Run(INIT, []).store);
      var w' := World(users, blocks, Run(INIT, [Resume(target, conn, 0)]).store);
      && StoredState(w, target) == Ok(State(target, false, None, 0))
      && SnapshotEntry(w, viewer, target) == State(target, false, None, 0)
      && StoredState(w', target) == Ok(State(target, true, None, 1))
      && SnapshotEntry(w', viewer, target) == State(target, false, None, 1)
  {
    var step := Resume(target, conn, 0);
    assert [step][..0] == [];
    assert Run(INIT, [step]) == Next(INIT, step);
    assert conn in LeasesOf(SetLeases(EMPTY_STORE, target, map[conn := GRACE_MS]), target);
  }
}
