/** Versions over whole runs: every version number a user ever gets is reported exactly once. */
module VersionAccounting {
  import opened Common
  import opened LeaseProtocol
  import opened LeaseInvariants

  /** The transitions of u in a log, in order. */
  function Transitions(log: seq<Event>, u: UserId): seq<Event> {
    if log == [] then []
    else
      var e := log[|log| - 1];
      Transitions(log[..|log| - 1], u) + if e.Transition? && e.user == u then [e] else []
  }

  /** How many version bumps a log reports for u. */
  function Bumps(log: seq<Event>, u: UserId): nat {
    if log == [] then 0
    else
      var e := log[|log| - 1];
      Bumps(log[..|log| - 1], u) + if e.Bumped? && e.user == u then 1 else 0
  }

  /** Transitions alternate, the first one turning the user online. */
  ghost predicate Alternates(transitions: seq<Event>) {
    forall i :: 0 <= i < |transitions| ==>
      transitions[i].Transition? && transitions[i].online == (i % 2 == 0)
  }

  ghost predicate UserAccounted(s: Sys, u: UserId) {
    && VersionOf(s.store, u) == |Transitions(s.log, u)| + Bumps(s.log, u)
    && Alternates(Transitions(s.log, u))
    && (Online(s.store, u) <==> |Transitions(s.log, u)| % 2 == 1)
  }

  /** The event reported at position i carries the version its user had reached by then, plus one; a
      transition turns its user online exactly if a resume caused it, and only an offline transition
      carries a last-seen time. */
  ghost predicate EventAccounted(log: seq<Event>, i: nat)
    requires i < |log|
  {
    var e := log[i];
    && e.version == |Transitions(log[..i], e.user)| + Bumps(log[..i], e.user) + 1
    && (e.Transition? ==> (e.online <==> e.origin == ByResume) && (e.lastSeen.Some? ==> !e.online))
  }

  ghost predicate Accounted(s: Sys) {
    && (forall u :: UserAccounted(s, u))
    && (forall i: nat :: i < |s.log| ==> EventAccounted(s.log, i))
  }

  /** What one step adds to the log, against what it does to the versions. */
  ghost predicate Reported(s: Sys, s': Sys, u: UserId, added: seq<Event>) {
    && s'.log == s.log + added
    && |added| <= 1
    && (forall v :: v != u ==>
          VersionOf(s'.store, v) == VersionOf(s.store, v) && (Online(s'.store, v) <==> Online(s.store, v)))
    && VersionOf(s'.store, u) == VersionOf(s.store, u) + |added|
    && (added == [] ==> (Online(s'.store, u) <==> Online(s.store, u)))
    && (added != [] ==>
          var e := added[0];
          && e.user == u
          && e.version == VersionOf(s.store, u) + 1
          && (e.Bumped? ==> (Online(s'.store, u) <==> Online(s.store, u)))
          && (e.Transition? ==>
                && (e.online <==> Online(s'.store, u)) && (e.online <==> !Online(s.store, u))
                && (e.online <==> e.origin == ByResume)
                && (e.lastSeen.Some? ==> !e.online)))
  }

  lemma SettledReports(s: Sys, s': Sys, u: UserId, m: Leases, reply: Result<LeaseReply>, origin: Origin)
    requires Indexed(s.store) && Settled(s.store, s'.store, u, m, reply)
    requires s'.log == s.log + Report(u, origin, reply)
    requires origin == ByResume ==> m != map[]
    requires origin != ByResume && m != map[] ==> LeasesOf(s.store, u) != map[]
    ensures Reported(s, s', u, Report(u, origin, reply))
  {
    assert UserIndexed(s.store, u);
    forall v | v != u
      ensures VersionOf(s'.store, v) == VersionOf(s.store, v) && (Online(s'.store, v) <==> Online(s.store, v))
    {
      assert LoadState(s'.store, v) == LoadState(s.store, v);
    }
  }

  lemma BumpReports(s: Sys, step: Step)
    requires Indexed(s.store) && step.Bump?
    ensures Reported(s, Next(s, step), step.user, [Bumped(step.user, VersionOf(s.store, step.user) + 1)])
  {
    var s', u := Next(s, step), step.user;
    assert UserIndexed(s.store, u);
    var row := LoadState(s.store, u).value;
    LoadAfterSave(s.store, u, Row(row.online, row.version + 1));
    forall v | v != u
      ensures VersionOf(s'.store, v) == VersionOf(s.store, v) && (Online(s'.store, v) <==> Online(s.store, v))
    {
      assert LoadState(s'.store, v) == LoadState(s.store, v);
    }
  }

  lemma SilentReports(s: Sys, s': Sys, u: UserId)
    requires s'.store.states == s.store.states && s'.log == s.log
    ensures Reported(s, s', u, [])
  {
    forall v ensures LoadState(s'.store, v) == LoadState(s.store, v) {}
  }

  /** Every step reports at most one event, with the user's next version. That a leave or a sweep
      turned a user online cannot happen: those branches of the scripts are dead. */
  lemma StepReports(s: Sys, step: Step) returns (u: UserId, added: seq<Event>)
    requires Indexed(s.store)
    ensures Reported(s, Next(s, step), u, added)
  {
    var s' := Next(s, step);
    match step
    case Resume(_, _, _) =>
      u, added := step.user, Report(step.user, ByResume, MutateCall(s.store, step).1);
      MutateSettles(s, step);
      SettledReports(s, s', u, Mutated(LeasesOf(s.store, u), step), MutateCall(s.store, step).1, ByResume);
    case Leave(_, _, _) =>
      u, added := step.user, Report(step.user, ByLeave, MutateCall(s.store, step).1);
      MutateSettles(s, step);
      SettledReports(s, s', u, Mutated(LeasesOf(s.store, u), step), MutateCall(s.store, step).1, ByLeave);
    case Bump(v) =>
      u, added := v, [Bumped(v, VersionOf(s.store, v) + 1)];
      BumpReports(s, step);
    case ClaimDue(_, _) =>
      u, added := 0, [];
      SilentReports(s, s', u);
    case Sweep(claim, now) =>
      u, added := claim.user, [];
      if claim in s.claims {
        var reply := SweepUser(s.store, u, now, claim.dueAt).1;
        added := Report(u, BySweep, reply);
        SweepSettles(s, step);
        SettledReports(s, s', u, Prune(LeasesOf(s.store, u), now), reply, BySweep);
      } else {
        SilentReports(s, s', u);
      }
    case Drop(_) =>
      u, added := 0, [];
      SilentReports(s, s', u);
  }

  lemma {:induction false} LogGrows(log: seq<Event>, e: Event, u: UserId)
    ensures Transitions(log + [e], u) == Transitions(log, u) + if e.Transition? && e.user == u then [e] else []
    ensures Bumps(log + [e], u) == Bumps(log, u) + if e.Bumped? && e.user == u then 1 else 0
  {
    assert (log + [e])[..|log|] == log;
  }

  lemma ReportKeepsUser(s: Sys, s': Sys, u: UserId, added: seq<Event>, v: UserId)
    requires Reported(s, s', u, added) && UserAccounted(s, v)
    ensures UserAccounted(s', v)
  {
    if added == [] {
      assert s'.log == s.log;
    } else {
      assert added == [added[0]];
      LogGrows(s.log, added[0], v);
    }
  }

  lemma ReportKeepsEvent(s: Sys, s': Sys, u: UserId, added: seq<Event>, i: nat)
    requires Reported(s, s', u, added) && UserAccounted(s, u) && i < |s'.log|
    requires i < |s.log| ==> EventAccounted(s.log, i)
    ensures EventAccounted(s'.log, i)
  {
    if i < |s.log| {
      assert s'.log[..i] == s.log[..i];
    } else {
      assert s'.log[..i] == s.log;
    }
  }

  lemma NextKeepsAccounted(s: Sys, step: Step)
    requires Indexed(s.store) && Accounted(s)
    ensures Accounted(Next(s, step))
  {
    var s' := Next(s, step);
    var u, added := StepReports(s, step);
    forall v ensures UserAccounted(s', v) {
      assert UserAccounted(s, v);
      ReportKeepsUser(s, s', u, added, v);
    }
    forall i: nat | i < |s'.log| ensures EventAccounted(s'.log, i) {
      assert UserAccounted(s, u);
      ReportKeepsEvent(s, s', u, added, i);
    }
  }

  /** MAIN: in every run each user's version is its number of transitions plus its number of bumps,
      its transitions alternate starting with online, it is online exactly after an odd number of
      them, and only a resume ever turned a user online. */
  lemma {:induction false} AlwaysAccounted(steps: seq<Step>)
    ensures Accounted(Run(INIT, steps))
  {
    if steps == [] {
      forall u ensures UserAccounted(INIT, u) {}
    } else {
      var before := steps[..|steps| - 1];
      AlwaysAccounted(before);
      AlwaysIndexed(before);
      NextKeepsAccounted(Run(INIT, before), steps[|steps| - 1]);
    }
  }

  lemma {:induction false} CountsGrow(log: seq<Event>, i: nat, j: nat, u: UserId)
    requires i <= j <= |log|
    ensures |Transitions(log[..i], u)| + Bumps(log[..i], u) <= |Transitions(log[..j], u)| + Bumps(log[..j], u)
    decreases j
  {
    if i < j {
      CountsGrow(log, i, j - 1, u);
      assert log[..j] == log[..j - 1] + [log[j - 1]];
      LogGrows(log[..j - 1], log[j - 1], u);
    }
  }

  lemma LaterVersionIsGreater(log: seq<Event>, i: nat, j: nat)
    requires i < j < |log| && log[i].user == log[j].user
    requires EventAccounted(log, i) && EventAccounted(log, j)
    ensures log[i].version < log[j].version
  {
    assert log[..i + 1] == log[..i] + [log[i]];
    LogGrows(log[..i], log[i], log[i].user);
    CountsGrow(log, i + 1, j, log[i].user);
  }

  /** MAIN: along a run the versions reported for one user strictly increase, so no version is
      reported twice. */
  lemma {:induction false} VersionsStrictlyIncrease(steps: seq<Step>, i: nat, j: nat)
    requires i < j < |Run(INIT, steps).log|
    requires Run(INIT, steps).log[i].user == Run(INIT, steps).log[j].user
    ensures Run(INIT, steps).log[i].version < Run(INIT, steps).log[j].version
  {
    AlwaysAccounted(steps);
    LaterVersionIsGreater(Run(INIT, steps).log, i, j);
  }

  // ---------- Published events and outbox keys ----------

  /** Only the results of leaves and sweeps reach HandleOfflineTransition; the callers of
      ResumeLease discard the result. */
  predicate Published(e: Event) {
    e.Transition? && e.origin != ByResume
  }

  /** MAIN: what is published over a run is exactly its offline transitions. */
  lemma {:induction false} PublishedAreOffline(steps: seq<Step>, e: Event)
    requires e in Run(INIT, steps).log && e.Transition?
    ensures Published(e) <==> !e.online
  {
    AlwaysAccounted(steps);
    var i :| 0 <= i < |Run(INIT, steps).log| && Run(INIT, steps).log[i] == e;
    assert EventAccounted(Run(INIT, steps).log, i);
  }

  function Decimal(n: nat): (text: string)
    ensures |text| >= 1 && (|text| == 1 <==> n < 10)
    ensures text[|text| - 1] == '0' + (n % 10) as char
  {
    var digit := ['0' + (n % 10) as char];
    if n < 10 then digit else Decimal(n / 10) + digit
  }

  predicate AllDigits(text: string) {
    forall i :: 0 <= i < |text| ==> '0' <= text[i] <= '9'
  }

  /** The number some digits denote, most significant first. */
  function ValueOf(text: string): nat
    requires AllDigits(text)
  {
    if text == "" then 0 else ValueOf(text[..|text| - 1]) * 10 + (text[|text| - 1] as int - '0' as int)
  }

  /** A version is written in decimal digits, without leading zeros, and reads back as itself. */
  lemma {:induction false} DecimalReads(n: nat)
    ensures AllDigits(Decimal(n)) && ValueOf(Decimal(n)) == n
    ensures Decimal(n)[0] == '0' ==> Decimal(n) == "0"
  {
    var text := Decimal(n);
    if n < 10 {
      assert text[..0] == "";
    } else {
      DecimalReads(n / 10);
      assert text[..|text| - 1] == Decimal(n / 10);
    }
  }

  lemma {:induction false} DecimalInjective(m: nat, n: nat)
    requires Decimal(m) == Decimal(n)
    ensures m == n
  {
    DecimalReads(m);
    DecimalReads(n);
  }

  /** uuid.String() as far as the keys rely on it: distinct ids print differently and without a dot. */
  ghost predicate PrintsIds(show: UserId -> string) {
    && (forall u, v :: show(u) == show(v) ==> u == v)
    && (forall u :: '.' !in show(u))
  }

  /** The idempotency key of a last-seen record. */
  function IdempotencyKey(show: UserId -> string, u: UserId, version: nat): string {
    show(u) + "." + Decimal(version)
  }

  lemma DotSeparates(a: string, b: string, x: string, y: string)
    requires '.' !in b && |a| < |b|
    ensures a + "." + x != b + "." + y
  {
    assert (a + "." + x)[|a|] == '.';
    assert (b + "." + y)[|a|] == b[|a|];
  }

  lemma KeyInjective(show: UserId -> string, u: UserId, m: nat, v: UserId, n: nat)
    requires PrintsIds(show) && IdempotencyKey(show, u, m) == IdempotencyKey(show, v, n)
    ensures u == v && m == n
  {
    var key, a, b := IdempotencyKey(show, u, m), show(u), show(v);
    if |a| < |b| {
      DotSeparates(a, b, Decimal(m), Decimal(n));
    } else if |b| < |a| {
      DotSeparates(b, a, Decimal(n), Decimal(m));
    } else {
      assert key[..|a|] == a && key[..|b|] == b;
      assert key[|a| + 1..] == Decimal(m) && key[|b| + 1..] == Decimal(n);
      DecimalInjective(m, n);
    }
  }

  lemma {:induction false} VersionsPositive(steps: seq<Step>, i: nat)
    requires i < |Run(INIT, steps).log|
    ensures Run(INIT, steps).log[i].version >= 1
  {
    AlwaysAccounted(steps);
    assert EventAccounted(Run(INIT, steps).log, i);
  }

  /** MAIN: the outbox keys of all events of a run are pairwise distinct, so the insert that ignores
      duplicate keys never swallows a record. */
  lemma {:induction false} KeysDistinct(show: UserId -> string, steps: seq<Step>, i: nat, j: nat)
    requires PrintsIds(show) && i < j < |Run(INIT, steps).log|
    ensures var log := Run(INIT, steps).log;
      && log[i].version >= 1 && log[j].version >= 1
      && IdempotencyKey(show, log[i].user, log[i].version) != IdempotencyKey(show, log[j].user, log[j].version)
  {
    var log := Run(INIT, steps).log;
    VersionsPositive(steps, i);
    VersionsPositive(steps, j);
    if IdempotencyKey(show, log[i].user, log[i].version) == IdempotencyKey(show, log[j].user, log[j].version) {
      KeyInjective(show, log[i].user, log[i].version, log[j].user, log[j].version);
      VersionsStrictlyIncrease(steps, i, j);
    }
  }
}
