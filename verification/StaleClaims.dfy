/** Races between a claim and its sweep. Any steps may run in between, so the claim may be stale. */
module StaleClaims {
  import opened Common
  import opened LeaseProtocol
  import opened LeaseInvariants
  import opened LeaseHistory
  import opened Draining

  lemma PrunedMax(m: Leases, now: int)
    requires Prune(m, now) != map[]
    ensures m != map[] && MaxExpiry(Prune(m, now)) == MaxExpiry(m)
  {
    var live := Prune(m, now);
    var b :| b in live && live[b] == MaxExpiry(live);
    assert b in m;
    var a :| a in m && m[a] == MaxExpiry(m);
    assert m[b] <= MaxExpiry(m);
    assert a in live && live[a] <= MaxExpiry(live);
  }

  /** What a sweep does to the user it names. */
  ghost predicate SweepSafe(s: Sys, s': Sys, u: UserId, now: int) {
    var m := LeasesOf(s.store, u);
    && (Online(s'.store, u) <==> exists c :: c in m && now < m[c])
    && (Online(s'.store, u) ==>
          u in s'.store.deadlines && m != map[] && s'.store.deadlines[u] == MaxExpiry(m))
    && (!Online(s'.store, u) ==> u !in s'.store.deadlines && LeasesOf(s'.store, u) == map[])
    && OnlyTouches(s.store, s'.store, u)
  }

  lemma SweepIsSafe(s: Sys, claim: Claim, now: int)
    requires Indexed(s.store) && claim in s.claims
    ensures SweepSafe(s, Next(s, Sweep(claim, now)), claim.user, now)
  {
    hide LoadState, Settle;
    var u, s' := claim.user, Next(s, Sweep(claim, now));
    var m := LeasesOf(s.store, u);
    var live := Prune(m, now);
    SweepSettles(s, Sweep(claim, now));
    if live != map[] {
      PrunedMax(m, now);
      var c :| c in live;
      assert now < m[c];
    } else {
      forall c | c in m ensures m[c] <= now {
        assert c !in live;
      }
    }
  }

  /** MAIN: whatever ran before, and however old the claim, a sweep leaves its user online exactly if
      some lease expires after the sweep's clock, and then the deadline entry is that user's latest
      expiry again; otherwise the user goes offline and off the index. Nobody else is touched. */
  lemma {:induction false} StaleClaimsAreHarmless(steps: seq<Step>, claim: Claim, now: int)
    requires claim in Run(INIT, steps).claims
    ensures SweepSafe(Run(INIT, steps), Run(INIT, steps + [Sweep(claim, now)]), claim.user, now)
  {
    hide Next, Indexed, SweepSafe;
    AlwaysIndexed(steps);
    SweepIsSafe(Run(INIT, steps), claim, now);
    assert (steps + [Sweep(claim, now)])[..|steps|] == steps;
  }

  // ---------- The last-seen time a sweep reports ----------

  ghost predicate Undisturbed(s: Sys, steps: seq<Step>, u: UserId) {
    steps == [] ||
    var before := steps[..|steps| - 1];
    Undisturbed(s, before, u) && !ActsOn(Run(s, before), steps[|steps| - 1], u)
  }

  ghost predicate AllAfter(m: Leases, t: int) {
    forall c :: c in m ==> t < m[c]
  }

  lemma DisturbingStep(s: Sys, step: Step, u: UserId, t: int)
    requires Indexed(s.store) && ActsOn(s, step, u) && NotBefore(step, t)
    ensures AllAfter(LeasesOf(Next(s, step).store, u), t)
  {
    hide LoadState, Settle;
    match step
    case Resume(_, _, _) => MutateSettles(s, step);
    case Leave(_, _, _) => MutateSettles(s, step);
    case Sweep(_, _) => SweepSettles(s, step);
  }

  /** The lease set after a run: as it was if nothing took effect on it, else past every clock. */
  lemma {:induction false} LeasesAfter(s: Sys, steps: seq<Step>, u: UserId, t: int)
    requires Indexed(s.store) && forall step :: step in steps ==> NotBefore(step, t)
    ensures Undisturbed(s, steps, u) ==> LeasesOf(Run(s, steps).store, u) == LeasesOf(s.store, u)
    ensures !Undisturbed(s, steps, u) ==> AllAfter(LeasesOf(Run(s, steps).store, u), t)
  {
    hide Next, Indexed, ActsOn, AllAfter;
    if steps != [] {
      var before, last := steps[..|steps| - 1], steps[|steps| - 1];
      assert last in steps;
      LeasesAfter(s, before, u, t);
      RunKeepsIndexed(s, before);
      if ActsOn(Run(s, before), last, u) {
        DisturbingStep(Run(s, before), last, u, t);
      } else {
        OthersKeepLeases(Run(s, before), last, u);
      }
    }
  }

  /** MAIN: the claim names dueAt, the latest expiry when it was taken. If every clock read since is at
      least dueAt and the user still has stored leases, the dueAt a sweep would report never exceeds
      the latest expiry, and equals it if and only if no resume, leave or sweep of the user took
      effect in between. */
  lemma {:induction false} StaleLastSeenIff(s: Sys, steps: seq<Step>, u: UserId, dueAt: int)
    requires Indexed(s.store)
    requires LeasesOf(s.store, u) != map[] && MaxExpiry(LeasesOf(s.store, u)) == dueAt
    requires forall step :: step in steps ==> NotBefore(step, dueAt)
    requires LeasesOf(Run(s, steps).store, u) != map[]
    ensures dueAt <= MaxExpiry(LeasesOf(Run(s, steps).store, u))
    ensures dueAt == MaxExpiry(LeasesOf(Run(s, steps).store, u)) <==> Undisturbed(s, steps, u)
  {
    hide Next, Indexed, Run;
    LeasesAfter(s, steps, u, dueAt);
    var m := LeasesOf(Run(s, steps).store, u);
    var c :| c in m && m[c] == MaxExpiry(m);
  }

  /** Every row of a claim carries the latest expiry of its user. */
  lemma ClaimedRowIsLatest(s: Sys, now: int, limit: int, claim: Claim)
    requires Indexed(s.store) && claim in ClaimDueUsers(s.store, now, limit).1
    ensures var m := LeasesOf(Next(s, ClaimDue(now, limit)).store, claim.user);
      && m != map[] && MaxExpiry(m) == claim.dueAt <= now
      && Indexed(Next(s, ClaimDue(now, limit)).store)
  {
    ClaimTakesRows(s.store.deadlines, now, limit);
    ClaimKeepsIndexed(s.store, now, limit);
    assert UserIndexed(s.store, claim.user);
  }

  lemma SweepReports(s: Sys, claim: Claim, now: int)
    requires Indexed(s.store) && claim in s.claims
    requires LeasesOf(s.store, claim.user) != map[]
    ensures var s' := Next(s, Sweep(claim, now));
      if Online(s'.store, claim.user) then s'.log == s.log
      else
        exists version ::
          s'.log == s.log + [Transition(claim.user, version, false, NullableTime(Some(claim.dueAt)), BySweep)]
  {
    SweepSettles(s, Sweep(claim, now));
    assert UserIndexed(s.store, claim.user);
    var reply := SweepUser(s.store, claim.user, now, claim.dueAt).1;
    assert Report(claim.user, BySweep, reply) == [] || Report(claim.user, BySweep, reply)
      == [Transition(claim.user, reply.value.version, false, NullableTime(Some(claim.dueAt)), BySweep)];
  }

  /** MAIN: if nothing took effect on the user between a claim and its sweep and the sweep turns the
      user offline, the last-seen time it reports is exactly the user's latest lease expiry. */
  lemma {:induction false} UndisturbedLastSeenIsExact(before: seq<Step>, now: int, limit: int, claim: Claim,
                                                      between: seq<Step>, sweepNow: int)
    requires claim in ClaimDueUsers(Run(INIT, before).store, now, limit).1
    requires Undisturbed(Run(INIT, before + [ClaimDue(now, limit)]), between, claim.user)
    requires claim in Run(Run(INIT, before + [ClaimDue(now, limit)]), between).claims
    ensures var s := Run(Run(INIT, before + [ClaimDue(now, limit)]), between);
      var s' := Next(s, Sweep(claim, sweepNow));
      && LeasesOf(s.store, claim.user) != map[]
      && var latest := MaxExpiry(LeasesOf(s.store, claim.user));
      && (Online(s'.store, claim.user) || exists version ::
            s'.log == s.log + [Transition(claim.user, version, false, NullableTime(Some(latest)), BySweep)])
  {
    hide Next, Indexed, Online, ClaimDueUsers;
    var claimed := Run(INIT, before + [ClaimDue(now, limit)]);
    assert (before + [ClaimDue(now, limit)])[..|before|] == before;
    AlwaysIndexed(before);
    ClaimedRowIsLatest(Run(INIT, before), now, limit, claim);
    UndisturbedKeeps(claimed, between, claim.user);
    RunKeepsIndexed(claimed, between);
    SweepReports(Run(claimed, between), claim, sweepNow);
  }

  lemma {:induction false} UndisturbedKeeps(s: Sys, steps: seq<Step>, u: UserId)
    requires Indexed(s.store) && Undisturbed(s, steps, u)
    ensures LeasesOf(Run(s, steps).store, u) == LeasesOf(s.store, u)
  {
    hide Next, Indexed, ActsOn;
    if steps != [] {
      var before, last := steps[..|steps| - 1], steps[|steps| - 1];
      UndisturbedKeeps(s, before, u);
      RunKeepsIndexed(s, before);
      OthersKeepLeases(Run(s, before), last, u);
    }
  }

  // ---------- Both failings are reachable ----------

  /** One user resumes at clock 0 and is claimed at its deadline. */
  function ResumedAndClaimed(u: UserId, c: ConnId): seq<Step> {
    [Resume(u, c, 0), ClaimDue(GRACE_MS, 1)]
  }

  lemma AfterResumedAndClaimed(u: UserId, c: ConnId)
    ensures var s := Run(INIT, ResumedAndClaimed(u, c));
      && Indexed(s.store)
      && s.store.leases == map[u := map[c := GRACE_MS]]
      && s.store.deadlines == map[]
      && s.claims == multiset{Claim(u, GRACE_MS)}
  {
    var steps := ResumedAndClaimed(u, c);
    AlwaysIndexed([]);
    var s1 := Next(INIT, Resume(u, c, 0));
    MutateSettles(INIT, Resume(u, c, 0));
    var m: Leases := map[c := GRACE_MS];
    assert Mutated(map[], Resume(u, c, 0)) == m;
    assert s1.store.leases == map[u := m];
    assert s1.store.deadlines == map[u := GRACE_MS];
    assert Due(s1.store.deadlines, GRACE_MS) == {u};
    assert FirstDue(s1.store.deadlines, GRACE_MS, 1) == [Claim(u, GRACE_MS)];
    assert Users([Claim(u, GRACE_MS)]) == {u} by {
      assert [Claim(u, GRACE_MS)][0].user == u;
    }
    assert steps[..1] == [Resume(u, c, 0)] && steps[..1][..0] == [];
    assert Run(INIT, steps[..1]) == s1;
    ClaimKeepsIndexed(s1.store, GRACE_MS, 1);
  }

  /** A sweep can report a last-seen time older than the latest lease: the user was claimed, renewed at
      91 000 until 181 000, and was swept at 200 000 with the old claim. */
  lemma StaleClaimUnderreports(u: UserId, c: ConnId)
    ensures var s := Run(INIT, ResumedAndClaimed(u, c) + [Resume(u, c, 91_000)]);
      && LeasesOf(s.store, u) == map[c := 181_000]
      && Claim(u, GRACE_MS) in s.claims
      && exists version :: Next(s, Sweep(Claim(u, GRACE_MS), 200_000)).log
           == s.log + [Transition(u, version, false, Some(90_000), BySweep)]
  {
    hide Next, Indexed;
    var claimed := Run(INIT, ResumedAndClaimed(u, c));
    AfterResumedAndClaimed(u, c);
    var renew := Resume(u, c, 91_000);
    assert (ResumedAndClaimed(u, c) + [renew])[..2] == ResumedAndClaimed(u, c);
    MutateSettles(claimed, renew);
    var s := Next(claimed, renew);
    assert Mutated(LeasesOf(claimed.store, u), renew) == map[c := 181_000];
    SweepIsSafe(s, Claim(u, GRACE_MS), 200_000);
    SweepReports(s, Claim(u, GRACE_MS), 200_000);
  }

  /** A failed sweep strands its user. */
  lemma FailedSweepStrands(u: UserId, c: ConnId)
    ensures var s := Run(INIT, ResumedAndClaimed(u, c) + [Drop(Claim(u, GRACE_MS))]);
      Indexed(s.store) && Stranded(s, u)
  {
    AfterResumedAndClaimed(u, c);
    var steps := ResumedAndClaimed(u, c) + [Drop(Claim(u, GRACE_MS))];
    assert steps[..2] == ResumedAndClaimed(u, c);
  }
}
