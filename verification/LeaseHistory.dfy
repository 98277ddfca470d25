/** The lease sets and the reports of every step and of every run, told without the scripts: who holds which
    lease, and who is therefore online. */
module LeaseHistory {
  import opened Common
  import opened LeaseProtocol
  import opened LeaseInvariants

  // ---------- One step ----------

  /** A resume stores its connection for 90 s from its clock on; every other connection of the user stays, with its
      expiry, if and only if it has not expired. */
  lemma ResumeKeepsLive(s: Sys, u: UserId, c: ConnId, now: int)
    requires Indexed(s.store)
    ensures var m, m' := LeasesOf(s.store, u), LeasesOf(Next(s, Resume(u, c, now)).store, u);
      && c in m' && m'[c] == now + 90_000
      && forall d :: d != c ==> (d in m' <==> d in m && now < m[d]) && (d in m' ==> m'[d] == m[d])
  {
    hide Settle, LoadState, Next;
    MutateSettles(s, Resume(u, c, now));
  }

  /** A leave forgets its connection, and keeps the same of the others. */
  lemma LeaveKeepsLive(s: Sys, u: UserId, c: ConnId, now: int)
    requires Indexed(s.store)
    ensures var m, m' := LeasesOf(s.store, u), LeasesOf(Next(s, Leave(u, c, now)).store, u);
      && c !in m'
      && forall d :: d != c ==> (d in m' <==> d in m && now < m[d]) && (d in m' ==> m'[d] == m[d])
  {
    hide Settle, LoadState, Next;
    MutateSettles(s, Leave(u, c, now));
  }

  /** A sweep keeps exactly the leases that have not expired. */
  lemma SweepKeepsLive(s: Sys, claim: Claim, now: int)
    requires Indexed(s.store) && claim in s.claims
    ensures var m, m' := LeasesOf(s.store, claim.user), LeasesOf(Next(s, Sweep(claim, now)).store, claim.user);
      forall d :: (d in m' <==> d in m && now < m[d]) && (d in m' ==> m'[d] == m[d])
  {
    hide Settle, LoadState, Next;
    SweepSettles(s, Sweep(claim, now));
  }

  /** The step acts on the leases of u at its clock. */
  ghost predicate ActsOn(s: Sys, step: Step, u: UserId) {
    || ((step.Resume? || step.Leave?) && step.user == u)
    || (step.Sweep? && step.claim in s.claims && step.claim.user == u)
  }

  lemma SettledFrame(st: Store, st': Store, v: UserId, m: Leases, reply: Result<LeaseReply>, u: UserId)
    requires Settled(st, st', v, m, reply) && u != v
    ensures LeasesOf(st', u) == LeasesOf(st, u)
  {
    hide LoadState;
  }

  lemma OthersKeepLeases(s: Sys, step: Step, u: UserId)
    requires Indexed(s.store) && !ActsOn(s, step, u)
    ensures LeasesOf(Next(s, step).store, u) == LeasesOf(s.store, u)
  {
    hide LoadState, Settle, Settled, Indexed;
    var st, st' := s.store, Next(s, step).store;
    match step
    case Resume(v, _, _) =>
      MutateSettles(s, step);
      SettledFrame(st, st', v, Mutated(LeasesOf(st, v), step), MutateCall(st, step).1, u);
    case Leave(v, _, _) =>
      MutateSettles(s, step);
      SettledFrame(st, st', v, Mutated(LeasesOf(st, v), step), MutateCall(st, step).1, u);
    case Sweep(claim, now) =>
      if claim in s.claims {
        SweepSettles(s, step);
        SettledFrame(st, st', claim.user, Prune(LeasesOf(st, claim.user), now),
                     SweepUser(st, claim.user, now, claim.dueAt).1, u);
      }
    case Bump(_) =>
    case ClaimDue(_, _) =>
    case Drop(_) =>
  }

  // ---------- What a step reports ----------

  /** Some lease of m other than that of the excepted connection expires after now. */
  ghost predicate LiveElsewhere(m: Leases, now: int, except: Option<ConnId>) {
    exists d :: d in m && Some(d) != except && now < m[d]
  }

  /** A time of zero or less is no time. */
  function TimeOf(ms: int): Option<int> {
    if ms > 0 then Some(ms) else None
  }

  /** A settled script reports exactly a change of the online flag, with the next version. */
  lemma SettledReport(st: Store, st': Store, u: UserId, m: Leases, reply: Result<LeaseReply>, origin: Origin, t: int)
    requires Indexed(st) && Settled(st, st', u, m, reply)
    requires reply.value.lastSeen.Some? ==> reply.value.lastSeen.value == t
    ensures Report(u, origin, reply) ==
      if Online(st, u) == (m != map[]) then []
      else [Transition(u, VersionOf(st, u) + 1, m != map[], if m == map[] then TimeOf(t) else None, origin)]
  {
    assert UserIndexed(st, u);
  }

  lemma ResumeReports(s: Sys, u: UserId, c: ConnId, now: int)
    requires Indexed(s.store)
    ensures Next(s, Resume(u, c, now)).log ==
      s.log + if Online(s.store, u) then [] else [Transition(u, VersionOf(s.store, u) + 1, true, None, ByResume)]
  {
    hide Settle, LoadState, Next, MutateLease, Settled, Indexed, Report;
    var step := Resume(u, c, now);
    MutateSettles(s, step);
    var m := Mutated(LeasesOf(s.store, u), step);
    var (st', reply) := MutateCall(s.store, step);
    assert c in m;
    SettledReport(s.store, st', u, m, reply, ByResume, now);
  }

  lemma LiveIffKept(m: Leases, step: Step)
    requires step.Leave?
    ensures Mutated(m, step) != map[] <==> LiveElsewhere(m, step.now, Some(step.conn))
    ensures Prune(m, step.now) != map[] <==> LiveElsewhere(m, step.now, None)
  {
    assert forall d :: d in Mutated(m, step) <==> d in m && d != step.conn && step.now < m[d];
    assert forall d :: d in Prune(m, step.now) <==> d in m && step.now < m[d];
  }

  lemma OfflineIsIndexed(st: Store, u: UserId)
    requires Indexed(st)
    ensures Online(st, u) <==> LeasesOf(st, u) != map[]
  {
    assert UserIndexed(st, u);
  }

  lemma LeaveReports(s: Sys, u: UserId, c: ConnId, now: int)
    requires Indexed(s.store)
    ensures Next(s, Leave(u, c, now)).log == s.log +
      if Online(s.store, u) && !LiveElsewhere(LeasesOf(s.store, u), now, Some(c))
      then [Transition(u, VersionOf(s.store, u) + 1, false, TimeOf(now), ByLeave)] else []
  {
    hide Settle, LoadState, Next, MutateLease, Settled, Indexed, Report, LeasesOf;
    var step := Leave(u, c, now);
    MutateSettles(s, step);
    var m := LeasesOf(s.store, u);
    var (st', reply) := MutateCall(s.store, step);
    LiveIffKept(m, step);
    OfflineIsIndexed(s.store, u);
    SettledReport(s.store, st', u, Mutated(m, step), reply, ByLeave, now);
  }

  lemma SweepReports(s: Sys, claim: Claim, now: int)
    requires Indexed(s.store) && claim in s.claims
    ensures Next(s, Sweep(claim, now)).log == s.log +
      if Online(s.store, claim.user) && !LiveElsewhere(LeasesOf(s.store, claim.user), now, None)
      then [Transition(claim.user, VersionOf(s.store, claim.user) + 1, false, TimeOf(claim.dueAt), BySweep)] else []
  {
    hide Settle, LoadState, Next, SweepUser, Settled, Indexed, Report, LeasesOf;
    var u, step := claim.user, Sweep(claim, now);
    SweepSettles(s, step);
    var m := LeasesOf(s.store, u);
    var (st', reply) := SweepUser(s.store, u, now, claim.dueAt);
    LiveIffKept(m, Leave(u, "", now));
    OfflineIsIndexed(s.store, u);
    SettledReport(s.store, st', u, Prune(m, now), reply, BySweep, claim.dueAt);
  }

  /** MAIN: what each step adds to the log. A resume reports an offline user online. A leave or a sweep reports an
      online user offline when no other lease of it is live at the step's clock, as last seen at that clock or at
      the claim's due time. A bump always reports, and nothing else does. Each report carries the next version. */
  lemma StepEvents(s: Sys, step: Step)
    requires Indexed(s.store)
    ensures var log, st := Next(s, step).log, s.store;
      match step
      case Resume(u, _, _) =>
        log == s.log + if Online(st, u) then [] else [Transition(u, VersionOf(st, u) + 1, true, None, ByResume)]
      case Leave(u, c, now) =>
        log == s.log + if Online(st, u) && !LiveElsewhere(LeasesOf(st, u), now, Some(c))
                       then [Transition(u, VersionOf(st, u) + 1, false, TimeOf(now), ByLeave)] else []
      case Bump(u) => log == s.log + [Bumped(u, VersionOf(st, u) + 1)]
      case Sweep(claim, now) =>
        log == s.log +
          if claim in s.claims && Online(st, claim.user) && !LiveElsewhere(LeasesOf(st, claim.user), now, None)
          then [Transition(claim.user, VersionOf(st, claim.user) + 1, false, TimeOf(claim.dueAt), BySweep)] else []
      case _ => log == s.log
  {
    hide Settle, LoadState;
    match step
    case Resume(u, c, now) => ResumeReports(s, u, c, now);
    case Leave(u, c, now) => LeaveReports(s, u, c, now);
    case Bump(u) => assert UserIndexed(s.store, u);
    case Sweep(claim, now) =>
      if claim in s.claims {
        SweepReports(s, claim, now);
      }
    case ClaimDue(_, _) =>
    case Drop(_) =>
  }

  // ---------- Whole runs ----------

  /** The step ends a lease of u on connection c that runs until expiry: a resume or a leave of that connection, or
      any act on u's leases at the expiry or later. */
  ghost predicate Ends(s: Sys, step: Step, u: UserId, c: ConnId, expiry: int) {
    ActsOn(s, step, u) && (((step.Resume? || step.Leave?) && step.conn == c) || expiry <= step.now)
  }

  /** Step i resumed connection c of u, and nothing has ended that lease since. */
  ghost predicate HeldSince(steps: seq<Step>, i: nat, u: UserId, c: ConnId)
    requires i < |steps|
  {
    && steps[i].Resume? && steps[i].user == u && steps[i].conn == c
    && forall j :: i < j < |steps| ==> !Ends(Run(INIT, steps[..j]), steps[j], u, c, steps[i].now + 90_000)
  }

  lemma StepLeases(s: Sys, step: Step, u: UserId, c: ConnId)
    requires Indexed(s.store)
    ensures var m, m' := LeasesOf(s.store, u), LeasesOf(Next(s, step).store, u);
      if step.Resume? && step.user == u && step.conn == c then c in m' && m'[c] == step.now + 90_000
      else (c in m' <==> c in m && !Ends(s, step, u, c, m[c])) && (c in m' ==> m'[c] == m[c])
  {
    hide Next, Indexed;
    if !ActsOn(s, step, u) {
      OthersKeepLeases(s, step, u);
    } else {
      match step
      case Resume(_, d, now) => ResumeKeepsLive(s, u, d, now);
      case Leave(_, d, now) => LeaveKeepsLive(s, u, d, now);
      case Sweep(claim, now) => SweepKeepsLive(s, claim, now);
    }
  }

  lemma HeldLonger(steps: seq<Step>, i: nat, u: UserId, c: ConnId)
    requires i < |steps| - 1
    ensures var n := |steps| - 1;
      && (HeldSince(steps[..n], i, u, c) ==> steps[i].Resume?)
      && (HeldSince(steps, i, u, c) <==>
        HeldSince(steps[..n], i, u, c) &&
        (steps[i].Resume? ==> !Ends(Run(INIT, steps[..n]), steps[n], u, c, steps[i].now + 90_000)))
  {
    hide Run, Ends;
    var n := |steps| - 1;
    assert steps[..n][i] == steps[i];
    forall j | i < j < n ensures steps[..n][..j] == steps[..j] && steps[..n][j] == steps[j] {}
  }

  /** MAIN: after every run, with failed sweeps and under any clocks, the leases of a user are exactly those of the
      resumes that nothing has ended since, each until 90 s after its own resume. */
  lemma {:induction false} LeasesIff(steps: seq<Step>, u: UserId, c: ConnId)
    ensures var m := LeasesOf(Run(INIT, steps).store, u);
      && (c in m <==> exists i: nat :: i < |steps| && HeldSince(steps, i, u, c))
      && (forall i: nat :: i < |steps| && HeldSince(steps, i, u, c) ==>
            steps[i].Resume? && c in m && m[c] == steps[i].now + 90_000)
  {
    hide Next, Ends, HeldSince;
    if steps != [] {
      var n := |steps| - 1;
      var before, last := steps[..n], steps[n];
      var s := Run(INIT, before);
      LeasesIff(before, u, c);
      AlwaysIndexed(before);
      StepLeases(s, last, u, c);
      forall i: nat | i < n
        ensures steps[i] == before[i] && (HeldSince(before, i, u, c) ==> steps[i].Resume?)
        ensures HeldSince(steps, i, u, c) <==>
          HeldSince(before, i, u, c) && (steps[i].Resume? ==> !Ends(s, last, u, c, steps[i].now + 90_000))
      {
        HeldLonger(steps, i, u, c);
      }
      LastHeld(steps, u, c);
      if c in LeasesOf(s.store, u) {
        var i: nat :| i < n && HeldSince(before, i, u, c);
        assert steps[i].Resume? && LeasesOf(s.store, u)[c] == steps[i].now + 90_000;
      }
    }
  }

  /** The last step holds the connection exactly if it resumes it; and then no earlier step does. */
  lemma LastHeld(steps: seq<Step>, u: UserId, c: ConnId)
    requires steps != []
    ensures var n := |steps| - 1;
      var resumes := steps[n].Resume? && steps[n].user == u && steps[n].conn == c;
      && (HeldSince(steps, n, u, c) <==> resumes)
      && (resumes ==> forall i: nat :: i < n ==> !HeldSince(steps, i, u, c))
  {
    hide Run;
  }

  /** MAIN: after every run a user is online if and only if some resume of it has not been ended since. */
  lemma {:induction false} OnlineIffHeld(steps: seq<Step>, u: UserId)
    ensures Online(Run(INIT, steps).store, u) <==>
      exists c: ConnId, i: nat :: i < |steps| && HeldSince(steps, i, u, c)
  {
    hide Run, HeldSince;
    AlwaysIndexed(steps);
    var st := Run(INIT, steps).store;
    assert UserIndexed(st, u);
    if Online(st, u) {
      var c :| c in LeasesOf(st, u);
      LeasesIff(steps, u, c);
      var i: nat :| i < |steps| && HeldSince(steps, i, u, c);
    }
    if c: ConnId, i: nat :| i < |steps| && HeldSince(steps, i, u, c) {
      LeasesIff(steps, u, c);
    }
  }

  lemma LeaveDecides(s: Sys, u: UserId, c: ConnId, now: int)
    requires Indexed(s.store)
    ensures var m := LeasesOf(s.store, u);
      Online(Next(s, Leave(u, c, now)).store, u) <==> exists d :: d in m && d != c && now < m[d]
  {
    hide Next, Indexed, Online, LeasesOf;
    var t := Next(s, Leave(u, c, now));
    NextKeepsIndexed(s, Leave(u, c, now));
    LeaveKeepsLive(s, u, c, now);
    OnlineIffLeases(t.store, u);
    var m, m' := LeasesOf(s.store, u), LeasesOf(t.store, u);
    assert forall d :: d in m' <==> d in m && d != c && now < m[d];
  }

  /** MAIN: after any run a leave takes its user offline, or leaves it there, unless the user holds a lease on another
      connection that has not expired. */
  lemma {:induction false} OnlineAfterLeave(steps: seq<Step>, u: UserId, c: ConnId, now: int)
    ensures var m := LeasesOf(Run(INIT, steps).store, u);
      Online(Run(INIT, steps + [Leave(u, c, now)]).store, u) <==> exists d :: d in m && d != c && now < m[d]
  {
    hide Next, Indexed, Online, LeasesOf;
    AlwaysIndexed(steps);
    LeaveDecides(Run(INIT, steps), u, c, now);
    var all := steps + [Leave(u, c, now)];
    assert all[..|all| - 1] == steps;
    assert Run(INIT, all) == Next(Run(INIT, steps), Leave(u, c, now));
  }

  lemma OnlineIffLeases(st: Store, u: UserId)
    requires Indexed(st)
    ensures var m := LeasesOf(st, u); Online(st, u) <==> exists c :: c in m
  {
    assert UserIndexed(st, u);
    var m := LeasesOf(st, u);
    assert Online(st, u) <==> m != map[];
    assert m != map[] <==> exists c :: c in m;
  }
}
