/** How sweeping drains the deadline index: the backlog due at a time T shrinks with every claim,
    and once it is gone nobody is online on expired leases alone. */
module Draining {
  import opened Common
  import opened LeaseProtocol
  import opened LeaseInvariants

  /** The users whose deadline entry is due at time t. */
  function Backlog(s: Sys, t: int): set<UserId> {
    Due(s.store.deadlines, t)
  }

  /** Every clock reading the step brings along is at or after t. */
  predicate NotBefore(step: Step, t: int) {
    match step
    case Resume(_, _, now) => t <= now
    case Leave(_, _, now) => t <= now
    case ClaimDue(now, _) => t <= now
    case Sweep(_, now) => t <= now
    case Bump(_) => true
    case Drop(_) => true
  }

  lemma {:induction false} RunConcat(s: Sys, a: seq<Step>, b: seq<Step>)
    ensures Run(s, a + b) == Run(Run(s, a), b)
  {
    if b == [] {
      assert a + b == a;
    } else {
      var n := |b| - 1;
      assert (a + b)[..|a + b| - 1] == a + b[..n];
      RunConcat(s, a, b[..n]);
    }
  }

  lemma {:induction false} RunKeepsIndexed(s: Sys, steps: seq<Step>)
    requires Indexed(s.store)
    ensures Indexed(Run(s, steps).store)
  {
    if steps != [] {
      RunKeepsIndexed(s, steps[..|steps| - 1]);
      NextKeepsIndexed(Run(s, steps[..|steps| - 1]), steps[|steps| - 1]);
    }
  }

  // ---------- One claim ----------

  lemma DueWithout(d: map<UserId, int>, u: UserId, t: int)
    ensures Due(d - {u}, t) == Due(d, t) - {u}
  {
  }

  /** A claim at or after t takes exactly min(limit, backlog) of the users due at t: those with the
      lowest scores come first, whatever else has fallen due since. */
  lemma {:induction false} ClaimTakesBacklog(d: map<UserId, int>, now: int, limit: nat, t: int)
    requires t <= now
    ensures |Due(d - Users(FirstDue(d, now, limit)), t)| == |Due(d, t)| - Min(limit, |Due(d, t)|)
  {
    hide FirstDue;
    FirstDueUnfold(d, now, limit);
    if limit == 0 || Due(d, now) == {} {
      assert d - Users([]) == d;
      assert Due(d, t) <= Due(d, now);
    } else {
      var u := Earliest(d, Due(d, now));
      ClaimTakesBacklog(d - {u}, now, limit - 1, t);
      DueWithout(d, u, t);
      EarliestIsDue(d, now, t);
    }
  }

  /** The rows are the first entries due at now, at most limit of them, by score and then by member. */
  ghost predicate AreFirstDue(d: map<UserId, int>, now: int, limit: nat, rows: seq<Claim>) {
    && |rows| == Min(limit, |Due(d, now)|)
    && (forall row :: row in rows ==> row.user in d && d[row.user] == row.dueAt <= now)
    && (forall i, j :: 0 <= i < j < |rows| ==>
          rows[i].dueAt < rows[j].dueAt || (rows[i].dueAt == rows[j].dueAt && rows[i].user < rows[j].user))
    && (forall u, row :: u in d && d[u] <= now && u !in Users(rows) && row in rows ==>
          row.dueAt < d[u] || (row.dueAt == d[u] && row.user < u))
  }

  lemma AreFirstDueCons(d: map<UserId, int>, now: int, limit: nat, u: UserId, rest: seq<Claim>)
    requires limit > 0 && u in d && d[u] <= now && AreFirstDue(d - {u}, now, limit - 1, rest)
    requires forall v :: v in d && v != u && d[v] <= now ==> d[u] < d[v] || (d[u] == d[v] && u < v)
    ensures AreFirstDue(d, now, limit, [Claim(u, d[u])] + rest)
  {
    hide Users;
    var rows := [Claim(u, d[u])] + rest;
    DueWithout(d, u, now);
    UsersCons(Claim(u, d[u]), rest);
    forall row | row in rows ensures row.user in d && d[row.user] == row.dueAt <= now {}
    forall i, j | 0 <= i < j < |rows|
      ensures rows[i].dueAt < rows[j].dueAt || (rows[i].dueAt == rows[j].dueAt && rows[i].user < rows[j].user)
    {
      assert rows[j] == rest[j - 1] && rest[j - 1] in rest;
      if i > 0 {
        assert rows[i] == rest[i - 1];
      }
    }
  }

  /** MAIN: a claim returns the first min(limit, due) of the due entries, in the order of their scores and, where these
      are equal, of their members: each row comes before the next, and before every due entry left behind. */
  lemma {:induction false} FirstDueExact(d: map<UserId, int>, now: int, limit: nat)
    ensures AreFirstDue(d, now, limit, FirstDue(d, now, limit))
  {
    if limit != 0 && Due(d, now) != {} {
      var u := Earliest(d, Due(d, now));
      FirstDueExact(d - {u}, now, limit - 1);
      forall v | v in d && v != u && d[v] <= now ensures d[u] < d[v] || (d[u] == d[v] && u < v) {
        assert v in Due(d, now) && Before(Claim(u, d[u]), Claim(v, d[v]));
      }
      AreFirstDueCons(d, now, limit, u, FirstDue(d - {u}, now, limit - 1));
    }
  }

  lemma FirstDueUnfold(d: map<UserId, int>, now: int, limit: nat)
    ensures limit == 0 || Due(d, now) == {} ==> FirstDue(d, now, limit) == []
    ensures limit != 0 && Due(d, now) != {} ==>
      var u := Earliest(d, Due(d, now));
      d - Users(FirstDue(d, now, limit)) == (d - {u}) - Users(FirstDue(d - {u}, now, limit - 1))
  {
    if limit != 0 && Due(d, now) != {} {
      var u := Earliest(d, Due(d, now));
      UsersCons(Claim(u, d[u]), FirstDue(d - {u}, now, limit - 1));
    }
  }

  /** The first due entry is due at t as soon as anything is. */
  lemma {:induction false} EarliestIsDue(d: map<UserId, int>, now: int, t: int)
    requires t <= now && Due(d, now) != {}
    ensures Due(d, t) != {} ==> Earliest(d, Due(d, now)) in Due(d, t)
  {
    var u := Earliest(d, Due(d, now));
    if Due(d, t) != {} {
      var v :| v in Due(d, t);
      assert v == u || Before(Claim(u, d[u]), Claim(v, d[v]));
    }
  }

  lemma UsersCons(c: Claim, rest: seq<Claim>)
    ensures Users([c] + rest) == {c.user} + Users(rest)
  {
    var rows := [c] + rest;
    forall u | u in {c.user} + Users(rest) ensures u in Users(rows) {
      if u == c.user {
        assert rows[0].user == u;
      } else {
        var i :| 0 <= i < |rest| && rest[i].user == u;
        assert rows[i + 1].user == u;
      }
    }
  }

  lemma SettledBacklog(s: Sys, s': Sys, u: UserId, m: Leases, reply: Result<LeaseReply>, t: int)
    requires Settled(s.store, s'.store, u, m, reply)
    requires m != map[] ==> t < MaxExpiry(m)
    ensures Backlog(s', t) <= Backlog(s, t)
  {
  }

  /** No step whose clock reads at least t adds to the backlog of t, and a claim takes its share. */
  lemma StepDrains(s: Sys, step: Step, t: int)
    requires Indexed(s.store) && NotBefore(step, t)
    ensures Backlog(Next(s, step), t) <= Backlog(s, t)
    ensures step.ClaimDue? && step.limit > 0 ==>
      |Backlog(Next(s, step), t)| == |Backlog(s, t)| - Min(step.limit, |Backlog(s, t)|)
  {
    match step
    case Resume(u, c, now) =>
      MutateSettles(s, step);
      var m := Mutated(LeasesOf(s.store, u), step);
      assert m[c] == now + GRACE_MS;
      SettledBacklog(s, Next(s, step), u, m, MutateCall(s.store, step).1, t);
    case Leave(u, c, now) =>
      MutateSettles(s, step);
      SettledBacklog(s, Next(s, step), u, Mutated(LeasesOf(s.store, u), step), MutateCall(s.store, step).1, t);
    case Bump(_) =>
    case ClaimDue(now, limit) =>
      if limit > 0 {
        ClaimTakesBacklog(s.store.deadlines, now, limit, t);
      }
    case Sweep(claim, now) =>
      if claim in s.claims {
        SweepSettles(s, step);
        SettledBacklog(s, Next(s, step), claim.user, Prune(LeasesOf(s.store, claim.user), now),
                       SweepUser(s.store, claim.user, now, claim.dueAt).1, t);
      }
    case Drop(_) =>
  }

  // ---------- Draining under traffic ----------

  /** How many of the steps claim at least k users. */
  function ClaimsOf(steps: seq<Step>, k: nat): nat {
    if steps == [] then 0
    else
      var last := steps[|steps| - 1];
      ClaimsOf(steps[..|steps| - 1], k) + if last.ClaimDue? && last.limit >= k then 1 else 0
  }

  lemma SubsetSize<T>(a: set<T>, b: set<T>)
    requires a <= b
    ensures |a| <= |b|
  {
    if a != {} {
      var x :| x in a;
      SubsetSize(a - {x}, b - {x});
    }
  }

  /** MAIN: while steps of every kind interleave at clocks from t on, m claims of at least k users
      each shrink the backlog of t by k per claim, until it is empty. */
  lemma {:induction false} BacklogShrinks(s: Sys, steps: seq<Step>, t: int, k: nat)
    requires Indexed(s.store) && k > 0
    requires forall step :: step in steps ==> NotBefore(step, t)
    ensures Indexed(Run(s, steps).store)
    ensures |Backlog(Run(s, steps), t)| <= Max(0, |Backlog(s, t)| - ClaimsOf(steps, k) * k)
  {
    hide Next, Indexed, NotBefore;
    if steps != [] {
      var before, last := steps[..|steps| - 1], steps[|steps| - 1];
      assert last in steps;
      BacklogShrinks(s, before, t, k);
      var mid := Run(s, before);
      NextKeepsIndexed(mid, last);
      StepDrains(mid, last, t);
      SubsetSize(Backlog(Next(mid, last), t), Backlog(mid, t));
      if last.ClaimDue? && last.limit >= k {
        assert ClaimsOf(steps, k) * k == ClaimsOf(before, k) * k + k;
      }
    }
  }

  /** MAIN: once enough claims have run at clocks from t on and none is left unswept, every online
      user holds a lease that expires after t. */
  lemma {:induction false} DrainIsComplete(before: seq<Step>, steps: seq<Step>, t: int, k: nat, u: UserId)
    requires forall step :: step in before + steps ==> !step.Drop?
    requires forall step :: step in steps ==> NotBefore(step, t)
    requires k > 0 && |Backlog(Run(INIT, before), t)| <= ClaimsOf(steps, k) * k
    requires Run(INIT, before + steps).claims == multiset{}
    requires Online(Run(INIT, before + steps).store, u)
    ensures var m := LeasesOf(Run(INIT, before + steps).store, u); exists c :: c in m && t < m[c]
  {
    hide Next, Run;
    var s := Run(INIT, before + steps);
    RunConcat(INIT, before, steps);
    AlwaysIndexed(before);
    BacklogShrinks(Run(INIT, before), steps, t, k);
    AlwaysCovered(before + steps);
    assert UserIndexed(s.store, u) && !Stranded(s, u);
    assert u !in Backlog(s, t);
    var m := LeasesOf(s.store, u);
    var c :| c in m && m[c] == MaxExpiry(m);
  }

  ghost predicate ExpireBy(st: Store, u: UserId, t: int) {
    forall c :: c in LeasesOf(st, u) ==> LeasesOf(st, u)[c] <= t
  }

  lemma ExpireByOf(st: Store, st': Store, u: UserId, t: int)
    requires ExpireBy(st, u, t) && LeasesOf(st', u) == LeasesOf(st, u)
    ensures ExpireBy(st', u, t)
  {
  }

  lemma SettledExpires(st: Store, st': Store, v: UserId, m: Leases, reply: Result<LeaseReply>, u: UserId, t: int)
    requires Settled(st, st', v, m, reply) && ExpireBy(st, u, t)
    requires v == u ==> forall c :: c in m ==> m[c] <= t
    ensures ExpireBy(st', u, t)
  {
    hide LoadState;
    if v != u {
      assert LeasesOf(st', u) == LeasesOf(st, u);
    }
  }

  lemma StepExpiresWithinGrace(s: Sys, step: Step, u: UserId, t: int)
    requires Indexed(s.store) && ExpireBy(s.store, u, t + GRACE_MS)
    requires step.Resume? && step.user == u ==> step.now <= t
    ensures ExpireBy(Next(s, step).store, u, t + GRACE_MS)
  {
    hide LoadState, Settled, Settle, Indexed;
    var s' := Next(s, step);
    match step
    case Resume(v, _, _) =>
      MutateSettles(s, step);
      SettledExpires(s.store, s'.store, v, Mutated(LeasesOf(s.store, v), step), MutateCall(s.store, step).1, u,
                     t + GRACE_MS);
    case Leave(v, _, _) =>
      MutateSettles(s, step);
      SettledExpires(s.store, s'.store, v, Mutated(LeasesOf(s.store, v), step), MutateCall(s.store, step).1, u,
                     t + GRACE_MS);
    case Sweep(claim, now) =>
      if claim in s.claims {
        SweepSettles(s, step);
        SettledExpires(s.store, s'.store, claim.user, Prune(LeasesOf(s.store, claim.user), now),
                       SweepUser(s.store, claim.user, now, claim.dueAt).1, u, t + GRACE_MS);
      }
    case Bump(_) => ExpireByOf(s.store, s'.store, u, t + GRACE_MS);
    case ClaimDue(_, _) => ExpireByOf(s.store, s'.store, u, t + GRACE_MS);
    case Drop(_) =>
  }

  lemma {:induction false} LeasesExpireWithinGrace(steps: seq<Step>, u: UserId, t: int)
    requires forall step :: step in steps && step.Resume? && step.user == u ==> step.now <= t
    ensures ExpireBy(Run(INIT, steps).store, u, t + GRACE_MS)
  {
    hide Next, Indexed;
    if steps != [] {
      var before, last := steps[..|steps| - 1], steps[|steps| - 1];
      assert last in steps;
      LeasesExpireWithinGrace(before, u, t);
      AlwaysIndexed(before);
      StepExpiresWithinGrace(Run(INIT, before), last, u, t);
    }
  }

  /** MAIN: a user whose last resume carried a clock of at most t is offline after any drain at
      t + 90 000 ms or later. */
  lemma {:induction false} OfflineAfterGrace(before: seq<Step>, steps: seq<Step>, t: int, now: int, k: nat, u: UserId)
    requires forall step :: step in before + steps ==> !step.Drop?
    requires forall step :: step in before + steps && step.Resume? && step.user == u ==> step.now <= t
    requires t + GRACE_MS <= now
    requires forall step :: step in steps ==> NotBefore(step, now)
    requires k > 0 && |Backlog(Run(INIT, before), now)| <= ClaimsOf(steps, k) * k
    requires Run(INIT, before + steps).claims == multiset{}
    ensures !Online(Run(INIT, before + steps).store, u)
  {
    LeasesExpireWithinGrace(before + steps, u, t);
    if Online(Run(INIT, before + steps).store, u) {
      DrainIsComplete(before, steps, now, k, u);
    }
  }

  // ---------- Rounds of one sweeper ----------

  /** The sweeps of the rows one claim returned, each with its own clock reading. */
  function SweepSteps(rows: seq<Claim>, clocks: nat -> int): seq<Step> {
    seq(|rows|, i requires 0 <= i < |rows| => Sweep(rows[i], clocks(i)))
  }

  ghost function RoundSteps(s: Sys, now: int, k: int, clocks: nat -> int): seq<Step> {
    [ClaimDue(now, k)] + SweepSteps(ClaimDueUsers(s.store, now, k).1, clocks)
  }

  ghost predicate DistinctUsers(rows: seq<Claim>) {
    forall i, j :: 0 <= i < j < |rows| ==> rows[i].user != rows[j].user
  }

  lemma DistinctCons(c: Claim, rest: seq<Claim>)
    requires DistinctUsers(rest) && forall row :: row in rest ==> row.user != c.user
    ensures DistinctUsers([c] + rest)
  {
    var rows := [c] + rest;
    forall i, j | 0 <= i < j < |rows| ensures rows[i].user != rows[j].user {
      assert rows[j] == rest[j - 1] && rest[j - 1] in rest;
      if i > 0 {
        assert rows[i] == rest[i - 1];
      }
    }
  }

  lemma {:induction false} RowsDistinct(d: map<UserId, int>, now: int, limit: nat)
    ensures DistinctUsers(FirstDue(d, now, limit))
  {
    if limit != 0 && Due(d, now) != {} {
      var u := Earliest(d, Due(d, now));
      RowsDistinct(d - {u}, now, limit - 1);
      ClaimTakesRows(d - {u}, now, limit - 1);
      DistinctCons(Claim(u, d[u]), FirstDue(d - {u}, now, limit - 1));
    }
  }

  /** State of a round after i sweeps, against the state s right after its claim. */
  ghost predicate SweptUpTo(s: Sys, s': Sys, rows: seq<Claim>, i: nat)
    requires i <= |rows|
  {
    && Indexed(s'.store)
    && s'.store.deadlines == s.store.deadlines
    && s'.claims == s.claims - multiset(rows[..i])
    && (forall u :: LeasesOf(s'.store, u) == if u in Users(rows[..i]) then map[] else LeasesOf(s.store, u))
  }

  lemma UsersSnoc(rows: seq<Claim>, i: nat)
    requires i < |rows|
    ensures Users(rows[..i + 1]) == Users(rows[..i]) + {rows[i].user}
  {
    forall v | v in Users(rows[..i]) + {rows[i].user} ensures v in Users(rows[..i + 1]) {
      if v == rows[i].user {
        assert rows[..i + 1][i].user == v;
      } else {
        var j :| 0 <= j < i && rows[..i][j].user == v;
        assert rows[..i + 1][j].user == v;
      }
    }
  }

  /** Sweeping a user without live leases and without a deadline entry empties its lease set, and
      changes nothing else that sweeps look at. */
  lemma SweepEmpties(s: Sys, claim: Claim, clock: int)
    requires Indexed(s.store) && claim in s.claims && claim.user !in s.store.deadlines
    requires ExpireBy(s.store, claim.user, clock)
    ensures var s' := Next(s, Sweep(claim, clock));
      && Indexed(s'.store)
      && s'.store.deadlines == s.store.deadlines
      && s'.claims == s.claims - multiset{claim}
      && (forall v :: LeasesOf(s'.store, v) == if v == claim.user then map[] else LeasesOf(s.store, v))
  {
    hide LoadState, Settle, Indexed, Next;
    SweepSettles(s, Sweep(claim, clock));
    var s' := Next(s, Sweep(claim, clock));
    assert Prune(LeasesOf(s.store, claim.user), clock) == map[];
    assert OnlyTouches(s.store, s'.store, claim.user);
    assert s'.store.deadlines == s.store.deadlines;
    forall v ensures LeasesOf(s'.store, v) == if v == claim.user then map[] else LeasesOf(s.store, v) {}
  }

  lemma StillClaimed(claims: multiset<Claim>, rows: seq<Claim>, i: nat)
    requires i < |rows| && multiset(rows) <= claims
    ensures rows[i] in claims - multiset(rows[..i])
    ensures claims - multiset(rows[..i]) - multiset{rows[i]} == claims - multiset(rows[..i + 1])
  {
    assert rows[..i + 1] == rows[..i] + [rows[i]];
    assert rows == rows[..i] + [rows[i]] + rows[i + 1..];
  }

  lemma SweepOneMore(s: Sys, s': Sys, rows: seq<Claim>, i: nat, clock: int)
    requires i < |rows| && SweptUpTo(s, s', rows, i)
    requires multiset(rows) <= s.claims
    requires DistinctUsers(rows)
    requires rows[i].user !in s.store.deadlines
    requires ExpireBy(s.store, rows[i].user, clock)
    ensures SweptUpTo(s, Next(s', Sweep(rows[i], clock)), rows, i + 1)
  {
    hide Next, Indexed, ExpireBy;
    assert rows[i].user !in Users(rows[..i]);
    ExpireByOf(s.store, s'.store, rows[i].user, clock);
    StillClaimed(s.claims, rows, i);
    SweepEmpties(s', rows[i], clock);
    UsersSnoc(rows, i);
  }

  lemma ExpireByLater(st: Store, u: UserId, now: int, clock: int)
    requires ExpireBy(st, u, now) && now <= clock
    ensures ExpireBy(st, u, clock)
  {
  }

  lemma {:induction false} SweepsRun(s: Sys, rows: seq<Claim>, clocks: nat -> int, now: int, i: nat)
    requires Indexed(s.store) && multiset(rows) <= s.claims && i <= |rows|
    requires DistinctUsers(rows)
    requires forall row :: row in rows ==> row.user !in s.store.deadlines
    requires forall row :: row in rows ==> ExpireBy(s.store, row.user, now)
    requires forall j: nat :: now <= clocks(j)
    ensures SweptUpTo(s, Run(s, SweepSteps(rows, clocks)[..i]), rows, i)
  {
    hide Next, Indexed, ExpireBy, DistinctUsers;
    var steps := SweepSteps(rows, clocks);
    if i == 0 {
      assert steps[..0] == [] && rows[..0] == [];
    } else {
      hide SweptUpTo;
      SweepsRun(s, rows, clocks, now, i - 1);
      assert steps[..i][..|steps[..i]| - 1] == steps[..i - 1];
      assert rows[i - 1] in rows;
      ExpireByLater(s.store, rows[i - 1].user, now, clocks(i - 1));
      SweepOneMore(s, Run(s, steps[..i - 1]), rows, i - 1, clocks(i - 1));
    }
  }

  /** Right after a claim, each claimed user is off the index and holds only expired leases. */
  lemma {:induction false} ClaimedAreExpired(s: Sys, now: int, k: int)
    requires Indexed(s.store) && k >= 1
    ensures var rows, s1 := FirstDue(s.store.deadlines, now, k), Next(s, ClaimDue(now, k));
      && Indexed(s1.store) && s1.claims == s.claims + multiset(rows)
      && s1.store.deadlines == s.store.deadlines - Users(rows)
      && s1.store.leases == s.store.leases
      && (forall row :: row in rows ==> row.user !in s1.store.deadlines && ExpireBy(s1.store, row.user, now))
  {
    var rows, s1 := FirstDue(s.store.deadlines, now, k), Next(s, ClaimDue(now, k));
    ClaimKeepsIndexed(s.store, now, k);
    ClaimTakesRows(s.store.deadlines, now, k);
    forall row | row in rows
      ensures row.user !in s1.store.deadlines && ExpireBy(s1.store, row.user, now)
    {
      assert UserIndexed(s.store, row.user);
      var i :| 0 <= i < |rows| && rows[i] == row;
      assert row.user in Users(rows);
    }
  }

  /** The system a round leaves behind. */
  ghost predicate RoundDone(s: Sys, s': Sys, now: int, k: nat) {
    && Indexed(s'.store) && Covered(s') && s'.claims == multiset{}
    && |Due(s'.store.deadlines, now)| == |Due(s.store.deadlines, now)| - Min(k, |Due(s.store.deadlines, now)|)
    && var rows := FirstDue(s.store.deadlines, now, k);
    && s'.store.deadlines == s.store.deadlines - Users(rows)
    && (forall u :: u in Users(rows) ==> !Online(s'.store, u))
    && (forall u :: u !in Users(rows) ==> LeasesOf(s'.store, u) == LeasesOf(s.store, u))
  }

  lemma {:induction false} SweptRoundIsDone(s: Sys, s1: Sys, s': Sys, now: int, k: nat)
    requires Indexed(s.store) && Covered(s) && s.claims == multiset{}
    requires var rows := FirstDue(s.store.deadlines, now, k);
      && s1.store.deadlines == s.store.deadlines - Users(rows)
      && s1.store.leases == s.store.leases
      && s1.claims == multiset(rows)
      && SweptUpTo(s1, s', rows, |rows|)
    ensures RoundDone(s, s', now, k)
  {
    hide FirstDue, LoadState;
    var rows := FirstDue(s.store.deadlines, now, k);
    assert rows[..|rows|] == rows;
    ClaimTakesBacklog(s.store.deadlines, now, k, now);
    forall u ensures !Stranded(s', u) && (u in Users(rows) ==> !Online(s'.store, u)) {
      SweptUser(s, s1, s', rows, u);
    }
  }

  lemma SweptUser(s: Sys, s1: Sys, s': Sys, rows: seq<Claim>, u: UserId)
    requires Indexed(s.store) && Covered(s) && s.claims == multiset{}
    requires s1.store.deadlines == s.store.deadlines - Users(rows) && s1.store.leases == s.store.leases
    requires Indexed(s'.store) && s'.store.deadlines == s1.store.deadlines
    requires LeasesOf(s'.store, u) == if u in Users(rows) then map[] else LeasesOf(s1.store, u)
    ensures !Stranded(s', u) && (u in Users(rows) ==> !Online(s'.store, u))
  {
    assert UserIndexed(s'.store, u) && UserIndexed(s.store, u) && !Stranded(s, u);
  }

  /** MAIN: with no claim outstanding, a round that claims at most k >= 1 users at now and sweeps each
      at now or later takes exactly min(k, due) users off the index and turns exactly those offline;
      every other lease set is untouched and no claim is left. */
  lemma {:induction false} RoundRemovesExactly(s: Sys, now: int, k: int, clocks: nat -> int)
    requires Indexed(s.store) && Covered(s) && s.claims == multiset{} && k >= 1
    requires forall j: nat :: now <= clocks(j)
    ensures RoundDone(s, Run(s, RoundSteps(s, now, k, clocks)), now, k)
  {
    hide Next, Indexed, Covered, SweptUpTo, RoundDone, ExpireBy, DistinctUsers, FirstDue;
    var rows := FirstDue(s.store.deadlines, now, k);
    var sweeps := SweepSteps(rows, clocks);
    var s1 := Next(s, ClaimDue(now, k));
    ClaimedAreExpired(s, now, k);
    RowsDistinct(s.store.deadlines, now, k);
    SweepsRun(s1, rows, clocks, now, |rows|);
    assert sweeps[..|rows|] == sweeps;
    SweptRoundIsDone(s, s1, Run(s1, sweeps), now, k);
    RunConcat(s, [ClaimDue(now, k)], sweeps);
    assert [ClaimDue(now, k)][..0] == [];
  }

  /** A round at now or later takes exactly min(k, due) off the users due at t, for any earlier t. */
  lemma {:induction false} RoundTakesBacklog(s: Sys, t: int, now: int, k: int, clocks: nat -> int)
    requires Indexed(s.store) && Covered(s) && s.claims == multiset{} && k >= 1 && t <= now
    requires forall j: nat :: now <= clocks(j)
    ensures var s' := Run(s, RoundSteps(s, now, k, clocks));
      && Indexed(s'.store) && Covered(s') && s'.claims == multiset{}
      && |Due(s'.store.deadlines, t)| == |Due(s.store.deadlines, t)| - Min(k, |Due(s.store.deadlines, t)|)
  {
    hide Next, Run, Indexed, Covered, RoundSteps, FirstDue;
    RoundRemovesExactly(s, now, k, clocks);
    ClaimTakesBacklog(s.store.deadlines, now, k, t);
  }

  /** The system after j rounds, round r claiming at nows(r) and sweeping at clocks(r). */
  ghost function Rounds(s: Sys, nows: nat -> int, k: int, clocks: nat -> nat -> int, j: nat): Sys {
    if j == 0 then s
    else
      var before := Rounds(s, nows, k, clocks, j - 1);
      Run(before, RoundSteps(before, nows(j - 1), k, clocks(j - 1)))
  }

  /** Every round claims at t or later, and sweeps no earlier than it claims. */
  ghost predicate Timely(t: int, nows: nat -> int, clocks: nat -> nat -> int) {
    forall r: nat :: t <= nows(r) && forall i: nat :: nows(r) <= clocks(r)(i)
  }

  /** MAIN: each round, whatever its clocks from t on, takes k off the users due at t, until none is left. */
  lemma {:induction false} RoundsDrain(s: Sys, t: int, nows: nat -> int, k: int, clocks: nat -> nat -> int, j: nat)
    requires Indexed(s.store) && Covered(s) && s.claims == multiset{} && k >= 1 && Timely(t, nows, clocks)
    ensures var s' := Rounds(s, nows, k, clocks, j);
      && Indexed(s'.store) && Covered(s') && s'.claims == multiset{}
      && |Due(s'.store.deadlines, t)| == Max(0, |Due(s.store.deadlines, t)| - j * k)
  {
    hide Next, Run, Indexed, Covered, RoundSteps;
    if j > 0 {
      var before := Rounds(s, nows, k, clocks, j - 1);
      RoundsDrain(s, t, nows, k, clocks, j - 1);
      RoundTakesBacklog(before, t, nows(j - 1), k, clocks(j - 1));
      assert j * k == (j - 1) * k + k;
    }
  }

  lemma CeilingRounds(n: nat, k: nat, j: nat)
    requires k > 0
    ensures n <= j * k <==> (n + k - 1) / k <= j
  {
    var q := (n + k - 1) / k;
    assert q * k <= n + k - 1 < q * k + k;
    if q <= j {
      assert q * k <= j * k;
    } else {
      assert (j + 1) * k <= q * k;
    }
  }

  /** MAIN: no entry due at t is left after j rounds iff j is at least ceil(due / k). */
  lemma {:induction false} DrainedIff(s: Sys, t: int, nows: nat -> int, k: int, clocks: nat -> nat -> int, j: nat)
    requires Indexed(s.store) && Covered(s) && s.claims == multiset{} && k >= 1 && Timely(t, nows, clocks)
    ensures Due(Rounds(s, nows, k, clocks, j).store.deadlines, t) == {}
      <==> (|Due(s.store.deadlines, t)| + k - 1) / k <= j
  {
    hide Rounds, Indexed, Covered, Timely;
    RoundsDrain(s, t, nows, k, clocks, j);
    CeilingRounds(|Due(s.store.deadlines, t)|, k, j);
  }

  /** Some lease of the user expires after now. */
  ghost predicate Live(st: Store, u: UserId, now: int) {
    exists c :: c in LeasesOf(st, u) && now < LeasesOf(st, u)[c]
  }

  /** With nothing claimed, the index is free of due entries exactly when every online user is live. */
  lemma DrainedMeansLive(s: Sys, now: int)
    requires Indexed(s.store) && Covered(s) && s.claims == multiset{}
    ensures Due(s.store.deadlines, now) == {} <==> forall u :: Online(s.store, u) ==> Live(s.store, u, now)
  {
    forall u ensures u in Due(s.store.deadlines, now) <==> Online(s.store, u) && !Live(s.store, u, now) {
      assert UserIndexed(s.store, u) && !Stranded(s, u);
      if Online(s.store, u) {
        var m := LeasesOf(s.store, u);
        var c :| c in m && m[c] == MaxExpiry(m);
      }
    }
    if Due(s.store.deadlines, now) != {} {
      var u :| u in Due(s.store.deadlines, now);
    }
  }

  /** MAIN: after j rounds every online user holds a lease that expires after t, if and only if j is at least
      ceil(due / k). */
  lemma {:induction false} EveryoneLiveIff(s: Sys, t: int, nows: nat -> int, k: int, clocks: nat -> nat -> int, j: nat)
    requires Indexed(s.store) && Covered(s) && s.claims == multiset{} && k >= 1 && Timely(t, nows, clocks)
    ensures var st := Rounds(s, nows, k, clocks, j).store;
      (forall u :: Online(st, u) ==> Live(st, u, t)) <==> (|Due(s.store.deadlines, t)| + k - 1) / k <= j
  {
    hide Rounds, Indexed, Covered, Online, Live, Timely;
    RoundsDrain(s, t, nows, k, clocks, j);
    DrainedIff(s, t, nows, k, clocks, j);
    DrainedMeansLive(Rounds(s, nows, k, clocks, j), t);
  }
}
