/** What every step of the presence system keeps: the hash, the lease sets and the deadline index
    agree, whatever the interleaving and whatever the clocks. */
module LeaseInvariants {
  import opened Common
  import opened LeaseProtocol

  /** The stored hash of u is well formed, u is online exactly if its lease set is non-empty, and a
      deadline entry of u is the latest expiry among its leases. */
  ghost predicate UserIndexed(st: Store, u: UserId) {
    && LoadState(st, u).Ok?
    && LoadState(st, u).value.version >= 0
    && (u in st.leases ==> st.leases[u] != map[])
    && (LoadState(st, u).value.online <==> u in st.leases)
    && (u in st.deadlines ==> u in st.leases && st.deadlines[u] == MaxExpiry(st.leases[u]))
  }

  ghost predicate Indexed(st: Store) {
    forall u :: UserIndexed(st, u)
  }

  ghost predicate Online(st: Store, u: UserId) {
    LoadState(st, u).Ok? && LoadState(st, u).value.online
  }

  function VersionOf(st: Store, u: UserId): int {
    match LoadState(st, u)
    case Ok(row) => row.version
    case Err(_) => 0
  }

  ghost predicate Claimed(s: Sys, u: UserId) {
    exists c :: c in s.claims && c.user == u
  }

  /** A user no sweep will ever reach: leases, but neither a deadline entry nor a claim. */
  ghost predicate Stranded(s: Sys, u: UserId) {
    u in s.store.leases && u !in s.store.deadlines && !Claimed(s, u)
  }

  ghost predicate Covered(s: Sys) {
    forall u :: !Stranded(s, u)
  }

  /** The keys of other users are untouched. */
  ghost predicate OnlyTouches(st: Store, st': Store, u: UserId) {
    forall v | v != u ::
      && (v in st'.leases <==> v in st.leases)
      && (v in st.leases ==> st'.leases[v] == st.leases[v])
      && (v in st'.deadlines <==> v in st.deadlines)
      && (v in st.deadlines ==> st'.deadlines[v] == st.deadlines[v])
      && (v in st'.states <==> v in st.states)
      && (v in st.states ==> st'.states[v] == st.states[v])
  }

  /** What a lease script (mutation or sweep) does to the user it names, given the lease set m it
      settles on. */
  ghost predicate Settled(st: Store, st': Store, u: UserId, m: Leases, reply: Result<LeaseReply>) {
    && OnlyTouches(st, st', u)
    && LeasesOf(st', u) == m
    && (u in st'.leases <==> m != map[])
    && (u in st'.deadlines <==> m != map[])
    && LoadState(st, u).Ok?
    && LoadState(st', u).Ok?
    && var row, row' := LoadState(st, u).value, LoadState(st', u).value;
    && row'.online == (m != map[])
    && row'.version == row.version + (if row.online != row'.online then 1 else 0)
    && reply.Ok?
    && reply.value.activeCount == |m|
    && reply.value.online == row'.online
    && reply.value.transitioned == (row.online != row'.online)
    && reply.value.version == row'.version
    && reply.value.nextDeadline == (if m != map[] then Some(MaxExpiry(m)) else None)
    && (m != map[] ==> st'.deadlines[u] == MaxExpiry(m))
    && (reply.value.lastSeen.Some? <==> row.online && !row'.online)
  }

  lemma LoadAfterSave(st: Store, u: UserId, row: Row)
    ensures LoadState(SaveState(st, u, row), u) == Ok(row)
  {
    assert SaveState(st, u, row).states[u] == StateHash(Number(if row.online then 1 else 0), Number(row.version));
  }

  /** The store with the keys of one user overwritten. */
  function Overwrite(st: Store, u: UserId, m: Leases, row: Row, deadline: Option<int>): Store {
    SaveState(SetLeases(st, u, m), u, row).(
      deadlines := if deadline.Some? then st.deadlines[u := deadline.value] else st.deadlines - {u})
  }

  lemma OverwriteEffect(st: Store, u: UserId, m: Leases, row: Row, deadline: Option<int>)
    ensures var st' := Overwrite(st, u, m, row, deadline);
      && OnlyTouches(st, st', u)
      && LeasesOf(st', u) == m
      && (u in st'.leases <==> m != map[])
      && (u in st'.deadlines <==> deadline.Some?)
      && (deadline.Some? ==> st'.deadlines[u] == deadline.value)
      && LoadState(st', u) == Ok(row)
  {
    LoadAfterSave(SetLeases(st, u, m), u, row);
  }

  lemma SettleIsOverwrite(st: Store, u: UserId, m: Leases, row: Row, lastSeen: int)
    requires LoadState(st, u) == Ok(row)
    ensures var online := m != map[];
      var version := row.version + if row.online != online then 1 else 0;
      var deadline := if online then Some(MaxExpiry(m)) else None;
      Settle(SetLeases(st, u, m), u, lastSeen) ==
        (Overwrite(st, u, m, Row(online, version), deadline),
         Ok(LeaseReply(|m|, online, row.online != online, version, deadline,
                       if row.online && !online then Some(lastSeen) else None)))
  {
    var mid := SetLeases(st, u, m);
    assert LeasesOf(mid, u) == m;
    assert LoadState(mid, u) == LoadState(st, u);
  }

  lemma SettleEffect(st: Store, u: UserId, m: Leases, lastSeen: int)
    requires LoadState(st, u).Ok?
    ensures var (st', reply) := Settle(SetLeases(st, u, m), u, lastSeen);
      && Settled(st, st', u, m, reply)
      && (reply.value.lastSeen.Some? ==> reply.value.lastSeen.value == lastSeen)
  {
    var row := LoadState(st, u).value;
    SettleIsOverwrite(st, u, m, row, lastSeen);
    var row' := Row(m != map[], row.version + if row.online != (m != map[]) then 1 else 0);
    OverwriteEffect(st, u, m, row', if m != map[] then Some(MaxExpiry(m)) else None);
  }

  /** The lease set with which a resume or leave settles. */
  function Mutated(m: Leases, step: Step): Leases
    requires step.Resume? || step.Leave?
  {
    match step
    case Resume(_, c, now) => Prune(m, now)[c := now + GRACE_MS]
    case Leave(_, c, now) => Prune(m, now) - {c}
  }

  lemma SettledKeepsIndexed(st: Store, st': Store, u: UserId, m: Leases, reply: Result<LeaseReply>)
    requires Indexed(st) && Settled(st, st', u, m, reply)
    ensures Indexed(st')
  {
    forall v ensures UserIndexed(st', v) {
      assert UserIndexed(st, v) && UserIndexed(st, u);
      if v != u {
        assert LoadState(st', v) == LoadState(st, v);
      }
    }
  }

  /** Every script of every caller answers in a system whose index is sound: the malformed-state
      error replies cannot be reached. */
  lemma ScriptsReply(st: Store, u: UserId, c: ConnId, expiry: int, now: int, dueAt: int)
    requires Indexed(st)
    ensures MutateLease(st, u, "resume", c, expiry, now).1.Ok?
    ensures MutateLease(st, u, "leave", c, expiry, now).1.Ok?
    ensures BumpVersion(st, u).1.Ok?
    ensures SweepUser(st, u, now, dueAt).1.Ok?
  {
    assert UserIndexed(st, u);
    var pruned := Prune(LeasesOf(st, u), now);
    SettleEffect(st, u, pruned[c := expiry], now);
    SettleEffect(st, u, pruned - {c}, now);
    SettleEffect(st, u, pruned, dueAt);
  }

  /** MutateLease as the step calls it. */
  ghost function MutateCall(st: Store, step: Step): (Store, Result<LeaseReply>)
    requires step.Resume? || step.Leave?
  {
    match step
    case Resume(u, c, now) => MutateLease(st, u, "resume", c, now + GRACE_MS, now)
    case Leave(u, c, now) => MutateLease(st, u, "leave", c, ZERO_TIME_MS, now)
  }

  lemma MutateIsSettle(st: Store, step: Step)
    requires step.Resume? || step.Leave?
    ensures MutateCall(st, step) ==
      Settle(SetLeases(st, step.user, Mutated(LeasesOf(st, step.user), step)), step.user, step.now)
  {
  }

  lemma SettleKeepsIndexed(st: Store, u: UserId, m: Leases, lastSeen: int)
    requires Indexed(st)
    ensures var (st', reply) := Settle(SetLeases(st, u, m), u, lastSeen);
      && Settled(st, st', u, m, reply)
      && (reply.value.lastSeen.Some? ==> reply.value.lastSeen.value == lastSeen)
      && Indexed(st')
  {
    assert UserIndexed(st, u);
    SettleEffect(st, u, m, lastSeen);
    var (st', reply) := Settle(SetLeases(st, u, m), u, lastSeen);
    SettledKeepsIndexed(st, st', u, m, reply);
  }

  /** A resume or leave settles on the mutated lease set, a sweep on the pruned one. */
  lemma MutateSettles(s: Sys, step: Step)
    requires Indexed(s.store) && (step.Resume? || step.Leave?)
    ensures var (st', reply) := MutateCall(s.store, step);
      && Next(s, step) ==
           Sys(st', s.claims, s.log + Report(step.user, if step.Resume? then ByResume else ByLeave, reply))
      && Settled(s.store, st', step.user, Mutated(LeasesOf(s.store, step.user), step), reply)
      && (reply.value.lastSeen.Some? ==> reply.value.lastSeen.value == step.now)
      && Indexed(st')
  {
    hide Settle, LoadState, Indexed, Settled;
    MutateIsSettle(s.store, step);
    SettleKeepsIndexed(s.store, step.user, Mutated(LeasesOf(s.store, step.user), step), step.now);
  }

  lemma SweepSettles(s: Sys, step: Step)
    requires Indexed(s.store) && step.Sweep? && step.claim in s.claims
    ensures var (st', reply) := SweepUser(s.store, step.claim.user, step.now, step.claim.dueAt);
      && Next(s, step) == Sys(st', s.claims - multiset{step.claim}, s.log + Report(step.claim.user, BySweep, reply))
      && Settled(s.store, st', step.claim.user, Prune(LeasesOf(s.store, step.claim.user), step.now), reply)
      && (reply.value.lastSeen.Some? ==> reply.value.lastSeen.value == step.claim.dueAt)
      && Indexed(st')
  {
    var u := step.claim.user;
    SettleKeepsIndexed(s.store, u, Prune(LeasesOf(s.store, u), step.now), step.claim.dueAt);
  }

  lemma BumpKeepsIndexed(st: Store, u: UserId)
    requires Indexed(st)
    ensures Indexed(BumpVersion(st, u).0)
  {
    assert UserIndexed(st, u);
    var row := LoadState(st, u).value;
    var st' := BumpVersion(st, u).0;
    LoadAfterSave(st, u, Row(row.online, row.version + 1));
    forall v ensures UserIndexed(st', v) {
      assert UserIndexed(st, v);
      if v != u {
        assert LoadState(st', v) == LoadState(st, v);
      }
    }
  }

  lemma ClaimKeepsIndexed(st: Store, now: int, limit: int)
    requires Indexed(st)
    ensures Indexed(ClaimDueUsers(st, now, limit).0)
  {
    var st' := ClaimDueUsers(st, now, limit).0;
    forall v ensures UserIndexed(st', v) {
      assert UserIndexed(st, v);
      assert LoadState(st', v) == LoadState(st, v);
    }
  }

  lemma NextKeepsIndexed(s: Sys, step: Step)
    requires Indexed(s.store)
    ensures Indexed(Next(s, step).store)
  {
    match step
    case Resume(_, _, _) => MutateSettles(s, step);
    case Leave(_, _, _) => MutateSettles(s, step);
    case Bump(u) => BumpKeepsIndexed(s.store, u);
    case ClaimDue(now, limit) => ClaimKeepsIndexed(s.store, now, limit);
    case Sweep(claim, _) => if claim in s.claims { SweepSettles(s, step); }
    case Drop(_) =>
  }

  /** MAIN: in every reachable state of every interleaving, under arbitrary clocks and even with
      failed sweeps, each user is online iff it holds a lease, each deadline entry is that user's
      latest expiry, and every stored hash has both fields in range. */
  lemma {:induction false} AlwaysIndexed(steps: seq<Step>)
    ensures Indexed(Run(INIT, steps).store)
  {
    if steps == [] {
      forall u ensures UserIndexed(INIT.store, u) {}
    } else {
      AlwaysIndexed(steps[..|steps| - 1]);
      NextKeepsIndexed(Run(INIT, steps[..|steps| - 1]), steps[|steps| - 1]);
    }
  }

  /** Every hash holds the plain digits that the scripts write. */
  ghost predicate Digits(st: Store) {
    forall u :: u in st.states ==> st.states[u].online.Number? && st.states[u].version.Number?
  }

  lemma SettleKeepsDigits(st: Store, u: UserId, lastSeen: int)
    requires Digits(st)
    ensures Digits(Settle(st, u, lastSeen).0)
  {
    hide MaxExpiry, LeasesOf;
    forall row ensures Digits(SaveState(st, u, row)) {}
  }

  lemma NextKeepsDigits(s: Sys, step: Step)
    requires Digits(s.store)
    ensures Digits(Next(s, step).store)
  {
    hide Settle;
    match step
    case Resume(u, c, now) =>
      SettleKeepsDigits(SetLeases(s.store, u, Prune(LeasesOf(s.store, u), now)[c := now + GRACE_MS]), u, now);
    case Leave(u, c, now) => SettleKeepsDigits(SetLeases(s.store, u, Prune(LeasesOf(s.store, u), now) - {c}), u, now);
    case Bump(_) =>
    case ClaimDue(_, _) =>
    case Sweep(claim, now) =>
      var pruned := Prune(LeasesOf(s.store, claim.user), now);
      SettleKeepsDigits(SetLeases(s.store, claim.user, pruned), claim.user, claim.dueAt);
    case Drop(_) =>
  }

  lemma {:induction false} AlwaysDigits(steps: seq<Step>)
    ensures Digits(Run(INIT, steps).store)
  {
    if steps != [] {
      AlwaysDigits(steps[..|steps| - 1]);
      NextKeepsDigits(Run(INIT, steps[..|steps| - 1]), steps[|steps| - 1]);
    }
  }

  /** The field holds n, as digits or as other text that Lua takes for n. */
  predicate Holds(field: Field, n: int) {
    field == Number(n) || (field.Text? && field.number == Some(n))
  }

  /** What the scripts make of a stored hash: an absent one is offline at version 0; the online field must hold 0 or
      1 and the version field a number, or the hash is malformed. */
  lemma LoadIff(st: Store, u: UserId)
    ensures u !in st.states ==> LoadState(st, u) == Ok(Row(false, 0))
    ensures u in st.states ==> forall online: bool, version: int ::
      LoadState(st, u) == Ok(Row(online, version)) <==>
        Holds(st.states[u].online, if online then 1 else 0) && Holds(st.states[u].version, version)
    ensures LoadState(st, u).Err? ==> LoadState(st, u) == Err("PRESENCE_MALFORMED_STATE")
  {
  }

  /** With any other action the script drops the expired leases of its user and then refuses. */
  lemma InvalidActionPrunes(st: Store, u: UserId, action: string, c: ConnId, expiry: int, now: int)
    requires action != "resume" && action != "leave"
    ensures var (st', reply) := MutateLease(st, u, action, c, expiry, now);
      && reply == Err("PRESENCE_INVALID_ACTION") && st'.deadlines == st.deadlines && st'.states == st.states
      && (forall v :: v != u ==> LeasesOf(st', v) == LeasesOf(st, v))
      && var m, m' := LeasesOf(st, u), LeasesOf(st', u);
      && forall d :: (d in m' <==> d in m && now < m[d]) && (d in m' ==> m'[d] == m[d])
  {
  }

  /** On a malformed hash a lease script stops with that error, and what it has done to the lease set stays. */
  lemma MalformedStops(st: Store, u: UserId, c: ConnId, expiry: int, now: int, dueAt: int)
    requires LoadState(st, u).Err?
    ensures var m := LeasesOf(st, u);
      && (var (st', reply) := MutateLease(st, u, "resume", c, expiry, now);
          && reply == Err("PRESENCE_MALFORMED_STATE") && st'.deadlines == st.deadlines && st'.states == st.states
          && (forall v :: v != u ==> LeasesOf(st', v) == LeasesOf(st, v))
          && (forall d :: d in LeasesOf(st', u) <==> d == c || (d in m && now < m[d]))
          && (forall d :: d in LeasesOf(st', u) ==> LeasesOf(st', u)[d] == if d == c then expiry else m[d]))
      && (var (st', reply) := MutateLease(st, u, "leave", c, expiry, now);
          && reply == Err("PRESENCE_MALFORMED_STATE") && st'.deadlines == st.deadlines && st'.states == st.states
          && (forall v :: v != u ==> LeasesOf(st', v) == LeasesOf(st, v))
          && (forall d :: d in LeasesOf(st', u) <==> d != c && d in m && now < m[d])
          && (forall d :: d in LeasesOf(st', u) ==> LeasesOf(st', u)[d] == m[d]))
      && (var (st', reply) := SweepUser(st, u, now, dueAt);
          && reply == Err("PRESENCE_MALFORMED_STATE") && st'.deadlines == st.deadlines && st'.states == st.states
          && (forall v :: v != u ==> LeasesOf(st', v) == LeasesOf(st, v))
          && (forall d :: d in LeasesOf(st', u) <==> d in m && now < m[d])
          && (forall d :: d in LeasesOf(st', u) ==> LeasesOf(st', u)[d] == m[d]))
  {
    var pruned := Prune(LeasesOf(st, u), now);
    SettleStops(st, u, pruned[c := expiry], now);
    SettleStops(st, u, pruned - {c}, now);
    SettleStops(st, u, pruned, dueAt);
    hide Settle, LoadState, SetLeases;
  }

  lemma SettleStops(st: Store, u: UserId, m: Leases, lastSeen: int)
    requires LoadState(st, u).Err?
    ensures var (st', reply) := Settle(SetLeases(st, u, m), u, lastSeen);
      && reply == Err("PRESENCE_MALFORMED_STATE") && st'.deadlines == st.deadlines && st'.states == st.states
      && LeasesOf(st', u) == m
      && (forall v :: v != u ==> LeasesOf(st', v) == LeasesOf(st, v))
  {
    var mid := SetLeases(st, u, m);
    assert LoadState(mid, u) == LoadState(st, u);
  }

  /** A bump adds one to the version of its user and touches nothing else; on a malformed hash it touches nothing. */
  lemma BumpExact(st: Store, u: UserId)
    ensures var (st', reply) := BumpVersion(st, u);
      if LoadState(st, u).Err? then st' == st && reply == Err("PRESENCE_MALFORMED_STATE")
      else
        var row := LoadState(st, u).value;
        && reply == Ok(Row(row.online, row.version + 1)) && LoadState(st', u) == reply
        && st'.leases == st.leases && st'.deadlines == st.deadlines
        && st'.states.Keys == st.states.Keys + {u}
        && forall v :: v in st.states && v != u ==> st'.states[v] == st.states[v]
  {
    if LoadState(st, u).Ok? {
      LoadAfterSave(st, u, Row(LoadState(st, u).value.online, LoadState(st, u).value.version + 1));
    }
  }

  /** MAIN: no script call can ever see a malformed hash. */
  lemma {:induction false} MalformedUnreachable(steps: seq<Step>, u: UserId, c: ConnId, expiry: int, now: int,
                                                dueAt: int)
    ensures var st := Run(INIT, steps).store;
      && MutateLease(st, u, "resume", c, expiry, now).1.Ok?
      && MutateLease(st, u, "leave", c, expiry, now).1.Ok?
      && BumpVersion(st, u).1.Ok?
      && SweepUser(st, u, now, dueAt).1.Ok?
  {
    AlwaysIndexed(steps);
    ScriptsReply(Run(INIT, steps).store, u, c, expiry, now, dueAt);
  }

  // ---------- Coverage ----------

  lemma {:induction false} ClaimTakesRows(d: map<UserId, int>, now: int, limit: nat)
    ensures forall u :: u in Users(FirstDue(d, now, limit)) ==>
      u in d && d[u] <= now && Claim(u, d[u]) in FirstDue(d, now, limit)
    ensures forall c :: c in FirstDue(d, now, limit) ==> c.user in d && c.dueAt == d[c.user] && c.dueAt <= now
  {
    if limit != 0 && Due(d, now) != {} {
      var u := Earliest(d, Due(d, now));
      ClaimTakesRows(d - {u}, now, limit - 1);
    }
  }

  /** The step is a resume or a leave of u. */
  predicate Touches(step: Step, u: UserId) {
    (step.Resume? || step.Leave?) && step.user == u
  }

  /** A claim of the user that survives keeps the user claimed. */
  lemma StillClaimedBy(s: Sys, t: Sys, u: UserId)
    requires Claimed(s, u) && forall c :: c in s.claims && c.user == u ==> c in t.claims
    ensures Claimed(t, u)
  {
    var c :| c in s.claims && c.user == u;
    assert c in t.claims;
  }

  lemma MutateStrandsNobody(s: Sys, step: Step, u: UserId)
    requires Indexed(s.store) && !Stranded(s, u) && (step.Resume? || step.Leave?)
    ensures !Stranded(Next(s, step), u)
  {
    MutateSettles(s, step);
    hide Next, LoadState, Indexed, Mutated;
    if u != step.user && Claimed(s, u) {
      StillClaimedBy(s, Next(s, step), u);
    }
  }

  lemma BumpStrandsNobody(s: Sys, v: UserId, u: UserId)
    requires !Stranded(s, u)
    ensures !Stranded(Next(s, Bump(v)), u)
  {
    hide LoadState;
    if Claimed(s, u) {
      StillClaimedBy(s, Next(s, Bump(v)), u);
    }
  }

  lemma ClaimStrandsNobody(s: Sys, now: int, limit: int, u: UserId)
    requires !Stranded(s, u)
    ensures !Stranded(Next(s, ClaimDue(now, limit)), u)
  {
    hide LoadState, FirstDue;
    var t := Next(s, ClaimDue(now, limit));
    if limit > 0 && u in Users(FirstDue(s.store.deadlines, now, limit)) {
      ClaimTakesRows(s.store.deadlines, now, limit);
      assert Claim(u, s.store.deadlines[u]) in t.claims;
    } else if Claimed(s, u) {
      StillClaimedBy(s, t, u);
    }
  }

  lemma SweepStrandsNobody(s: Sys, claim: Claim, now: int, u: UserId)
    requires Indexed(s.store) && !Stranded(s, u)
    ensures !Stranded(Next(s, Sweep(claim, now)), u)
  {
    if claim in s.claims {
      SweepSettles(s, Sweep(claim, now));
      hide Next, LoadState, Settle, Indexed;
      if u != claim.user && Claimed(s, u) {
        StillClaimedBy(s, Next(s, Sweep(claim, now)), u);
      }
    }
  }

  lemma DropStrandsOnlyItsUser(s: Sys, claim: Claim, u: UserId)
    requires !Stranded(s, u) && claim.user != u
    ensures !Stranded(Next(s, Drop(claim)), u)
  {
    if Claimed(s, u) {
      StillClaimedBy(s, Next(s, Drop(claim)), u);
    }
  }

  /** No step but the drop of a claim of that user strands a user. */
  lemma OnlyDropStrands(s: Sys, step: Step, u: UserId)
    requires Indexed(s.store) && !Stranded(s, u)
    requires !(step.Drop? && step.claim.user == u)
    ensures !Stranded(Next(s, step), u)
  {
    hide Next, Stranded, Indexed;
    match step
    case Resume(_, _, _) => MutateStrandsNobody(s, step, u);
    case Leave(_, _, _) => MutateStrandsNobody(s, step, u);
    case Bump(v) => BumpStrandsNobody(s, v, u);
    case ClaimDue(now, limit) => ClaimStrandsNobody(s, now, limit, u);
    case Sweep(claim, now) => SweepStrandsNobody(s, claim, now, u);
    case Drop(claim) => DropStrandsOnlyItsUser(s, claim, u);
  }

  /** MAIN: if no sweep call fails, every user with a lease has a deadline entry or an unswept claim. */
  lemma {:induction false} AlwaysCovered(steps: seq<Step>)
    requires forall step :: step in steps ==> !step.Drop?
    ensures Covered(Run(INIT, steps))
  {
    if steps != [] {
      var before, last := steps[..|steps| - 1], steps[|steps| - 1];
      AlwaysCovered(before);
      AlwaysIndexed(before);
      assert last in steps;
      forall u ensures !Stranded(Run(INIT, steps), u) {
        OnlyDropStrands(Run(INIT, before), last, u);
      }
    }
  }

  lemma StrandedStep(s: Sys, step: Step, u: UserId)
    requires Indexed(s.store) && Stranded(s, u) && !Touches(step, u)
    ensures Stranded(Next(s, step), u) && LeasesOf(Next(s, step).store, u) == LeasesOf(s.store, u)
  {
    var s' := Next(s, step);
    match step
    case Resume(_, _, _) => MutateSettles(s, step);
    case Leave(_, _, _) => MutateSettles(s, step);
    case Bump(_) =>
    case ClaimDue(now, limit) =>
      if limit > 0 {
        ClaimTakesRows(s.store.deadlines, now, limit);
        forall c | c in s'.claims ensures c.user != u {
          if c !in s.claims {
            assert c in FirstDue(s.store.deadlines, now, limit);
          }
        }
      }
    case Sweep(claim, _) => if claim in s.claims { SweepSettles(s, step); }
    case Drop(_) =>
  }

  /** MAIN: a stranded user stays online with the same leases, however long expired, through every
      run in which it neither resumes nor leaves. */
  lemma {:induction false} StrandedStaysOnline(s: Sys, steps: seq<Step>, u: UserId)
    requires Indexed(s.store) && Stranded(s, u)
    requires forall step :: step in steps ==> !Touches(step, u)
    ensures Indexed(Run(s, steps).store) && Stranded(Run(s, steps), u)
    ensures Online(Run(s, steps).store, u)
    ensures LeasesOf(Run(s, steps).store, u) == LeasesOf(s.store, u)
  {
    if steps == [] {
      assert UserIndexed(s.store, u);
    } else {
      var before := steps[..|steps| - 1];
      StrandedStaysOnline(s, before, u);
      NextKeepsIndexed(Run(s, before), steps[|steps| - 1]);
      assert steps[|steps| - 1] in steps;
      StrandedStep(Run(s, before), steps[|steps| - 1], u);
      assert UserIndexed(Run(s, steps).store, u);
    }
  }

  /** The step drops the last claim of a user who holds leases that the deadline index does not know. */
  ghost predicate Strands(s: Sys, step: Step, u: UserId) {
    && step.Drop? && step.claim.user == u && s.claims[step.claim] == 1
    && (forall c :: c in s.claims && c.user == u ==> c == step.claim)
    && u in s.store.leases && u !in s.store.deadlines
  }

  /** MAIN: a step strands a user if and only if it drops that user's only claim, held once, while the user has
      leases and no deadline entry. A drop after a renewal strands nobody. */
  lemma StrandsIff(s: Sys, step: Step, u: UserId)
    requires Indexed(s.store) && !Stranded(s, u)
    ensures Stranded(Next(s, step), u) <==> Strands(s, step, u)
  {
    if step.Drop? && step.claim.user == u {
      var s' := Next(s, step);
      if step.claim in s.claims {
        forall c | c in s.claims && c != step.claim ensures c in s'.claims {}
        assert step.claim in s'.claims <==> s.claims[step.claim] > 1;
      }
    } else {
      OnlyDropStrands(s, step, u);
    }
  }

  /** A resume or a leave puts its user back on the index, or off the lease sets. */
  lemma TouchUnstrands(s: Sys, step: Step, u: UserId)
    requires Indexed(s.store) && Touches(step, u)
    ensures !Stranded(Next(s, step), u)
  {
    MutateSettles(s, step);
  }

  /** MAIN: in every run a user is stranded at the end if and only if some drop stranded it and it has neither
      resumed nor left since. */
  lemma {:induction false} StrandedIff(steps: seq<Step>, u: UserId)
    ensures Stranded(Run(INIT, steps), u) <==>
      exists i: nat :: i < |steps| && StrandedAt(steps, i, u)
  {
    hide Next, Indexed, Stranded, Strands;
    if steps == [] {
      NobodyStranded(u);
    } else {
      var before, last := steps[..|steps| - 1], steps[|steps| - 1];
      StrandedIff(before, u);
      AlwaysIndexed(before);
      var s := Run(INIT, before);
      forall i: nat | i < |before|
        ensures StrandedAt(steps, i, u) <==> StrandedAt(before, i, u) && !Touches(last, u)
      {
        assert steps[..i] == before[..i] && steps[i] == before[i];
      }
      if Touches(last, u) {
        TouchUnstrands(s, last, u);
        TouchesDoesNotStrand(s, last, u);
      } else if Stranded(s, u) {
        var i: nat :| i < |before| && StrandedAt(before, i, u);
        StrandedStep(s, last, u);
        assert StrandedAt(steps, i, u);
      } else {
        StrandsIff(s, last, u);
        if Strands(s, last, u) {
          assert StrandedAt(steps, |steps| - 1, u);
        }
      }
    }
  }

  /** Step i strands the user, who neither resumes nor leaves afterwards. */
  ghost predicate StrandedAt(steps: seq<Step>, i: nat, u: UserId)
    requires i < |steps|
  {
    Strands(Run(INIT, steps[..i]), steps[i], u) && forall j :: i < j < |steps| ==> !Touches(steps[j], u)
  }

  lemma NobodyStranded(u: UserId)
    ensures !Stranded(INIT, u)
  {
  }

  lemma TouchesDoesNotStrand(s: Sys, step: Step, u: UserId)
    requires Touches(step, u)
    ensures !Strands(s, step, u)
  {
  }
}
