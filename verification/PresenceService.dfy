/** What a reported transition causes outside the store, and the actors that drive the scripts. */
module PresenceService {
  import opened Common
  import opened LeaseProtocol
  import opened LeaseInvariants
  import Draining
  import opened VersionAccounting
  import opened RedisRepository

  datatype State = State(user: UserId, online: bool, lastSeen: Option<int>, version: int)

  /** LeaseResult, as parseLeaseResult reads it off a script's reply. */
  datatype LeaseResult = LeaseResult(state: State, activeCount: nat, transitioned: bool, nextDeadline: Option<int>)

  function ParseLeaseResult(u: UserId, reply: LeaseReply): LeaseResult {
    LeaseResult(State(u, reply.online, NullableTime(reply.lastSeen), reply.version),
                reply.activeCount, reply.transitioned, NullableTime(reply.nextDeadline))
  }

  /** Milliseconds rounded down to whole seconds, as the Go RFC3339 layout prints them. */
  function WholeSeconds(ms: int): int {
    ms / 1000 * 1000
  }

  /** LastSeenRecordPayload */
  datatype Record = Record(user: UserId, lastSeen: int, version: int)

  /** Everything the service has sent out: the presence.changed messages, and the outbox by
      idempotency key. */
  datatype Effects = Effects(published: seq<State>, outbox: map<string, Record>)

  /** ON CONFLICT (idempotency_key) DO NOTHING */
  function Insert(outbox: map<string, Record>, key: string, record: Record): map<string, Record> {
    if key in outbox then outbox else outbox[key := record]
  }

  /** How the transaction that inserts a record went: committed and acknowledged, committed but reported as an
      error, or without effect. */
  datatype InsertCall = Inserted | AckLost | Refused {
    predicate TookEffect() {
      !Refused?
    }
  }

  /** HandleOfflineTransition, where the caller says whether the message went out and how the insert went. */
  function Handle(fx: Effects, show: UserId -> string, res: LeaseResult, publishOk: bool, insert: InsertCall): Effects
    requires res.state.version >= 0
  {
    if !res.transitioned then fx else
    var published := if publishOk then fx.published + [res.state] else fx.published;
    if !res.state.online && res.state.lastSeen.Some? && insert.TookEffect() then
      Effects(published, Insert(fx.outbox, IdempotencyKey(show, res.state.user, res.state.version),
                                Record(res.state.user, WholeSeconds(res.state.lastSeen.value), res.state.version)))
    else
      Effects(published, fx.outbox)
  }

  // ---------- The effects of a log ----------

  /** What became of one reported event: whether its message went out, and how its insert went, if attempted. */
  datatype Handling = Handling(publishOk: bool, insert: InsertCall)

  /** The caller of the script never saw the reply, or has no use for it. */
  const UNHANDLED := Handling(false, Refused)

  function StateOf(e: Event): State
    requires e.Transition?
  {
    State(e.user, e.online, e.lastSeen, e.version)
  }

  /** The effects of everything a system has reported, each event with its own outcome. (No run reports a
      negative version.) */
  function HandleAll(show: UserId -> string, log: seq<Event>, outcomes: seq<Handling>): Effects
    requires |outcomes| == |log|
  {
    if log == [] then Effects([], map[]) else
    var n := |log| - 1;
    var fx := HandleAll(show, log[..n], outcomes[..n]);
    if Published(log[n]) && log[n].version >= 0
    then Handle(fx, show, LeaseResult(StateOf(log[n]), 0, true, None), outcomes[n].publishOk, outcomes[n].insert)
    else fx
  }

  lemma {:induction false} HandleOneMore(show: UserId -> string, log: seq<Event>, outcomes: seq<Handling>, e: Event,
                                         h: Handling)
    requires |outcomes| == |log|
    ensures var fx := HandleAll(show, log, outcomes);
      HandleAll(show, log + [e], outcomes + [h]) ==
        if Published(e) && e.version >= 0
        then Handle(fx, show, LeaseResult(StateOf(e), 0, true, None), h.publishOk, h.insert) else fx
  {
    assert (log + [e])[..|log|] == log && (outcomes + [h])[..|log|] == outcomes;
  }

  // ---------- The service over one store ----------

  /** How a Redis call went: its script never ran, it ran but the reply was lost, or it answered. */
  datatype Call = NotRun | ReplyLost | Answered

  class Service {
    const store: RedisStore
    const show: UserId -> string
    var published: seq<State>
    var outbox: map<string, Record>

    constructor (store: RedisStore, show: UserId -> string)
      ensures this.store == store && this.show == show && Sent() == Effects([], map[])
    {
      this.store, this.show := store, show;
      published, outbox := [], map[];
    }

    function Sent(): Effects
      reads this
    {
      Effects(published, outbox)
    }

    /** The store is that of the system s, and what has been sent are the effects of everything s has reported. */
    ghost predicate Follows(s: Sys, outcomes: seq<Handling>)
      reads this, store
    {
      && store.Model() == s.store && Indexed(s.store)
      && |outcomes| == |s.log| && Sent() == HandleAll(show, s.log, outcomes)
    }

    /** EnqueueLastSeen; false when the insert reports an error, which does not mean that it had no effect. */
    method EnqueueLastSeen(u: UserId, occurredAt: int, version: nat, insert: InsertCall) returns (ok: bool)
      modifies this`outbox
      ensures ok <==> insert == Inserted
      ensures show(u) + "." + Decimal(version) in old(outbox) ==> outbox == old(outbox)
      ensures outbox == if insert.TookEffect() then Insert(old(outbox), IdempotencyKey(show, u, version),
                                                           Record(u, WholeSeconds(occurredAt), version))
                        else old(outbox)
    {
      var record := Record(u, WholeSeconds(occurredAt), version);
      var key := IdempotencyKey(show, u, version);
      if insert.TookEffect() && key !in outbox {
        outbox := outbox[key := record];
      }
      ok := insert == Inserted;
    }

    /** A failed publish is logged and the last-seen record is still enqueued. */
    method HandleOfflineTransition(res: LeaseResult, publishOk: bool, insert: InsertCall) returns (ok: bool)
      requires res.state.version >= 0
      modifies this`published, this`outbox
      ensures Sent() == Handle(old(Sent()), show, res, publishOk, insert)
      ensures ok <==> (res.transitioned && !res.state.online && res.state.lastSeen.Some? ==> insert == Inserted)
      ensures published == old(published) + if res.transitioned && publishOk then [res.state] else []
      ensures outbox ==
        if res.transitioned && !res.state.online && res.state.lastSeen.Some? && !insert.Refused?
        then Insert(old(outbox), show(res.state.user) + "." + Decimal(res.state.version),
                    Record(res.state.user, WholeSeconds(res.state.lastSeen.value), res.state.version))
        else old(outbox)
    {
      ok := true;
      if !res.transitioned {
        return;
      }
      if publishOk {
        published := published + [res.state];
      }
      if !res.state.online && res.state.lastSeen.Some? {
        ok := EnqueueLastSeen(res.state.user, res.state.lastSeen.value, res.state.version, insert);
      }
    }

    /** A connection opens or renews: the result of the resume is looked at for its error only. */
    method Resume(u: UserId, conn: ConnId, now: int, call: Call, ghost s: Sys, ghost past: seq<Handling>)
      returns (ghost t: Sys, ghost outcomes: seq<Handling>)
      requires Follows(s, past)
      modifies store
      ensures t == if call.NotRun? then s else Next(s, LeaseProtocol.Resume(u, conn, now))
      ensures outcomes == past + Outcomes(s, t, UNHANDLED) && Follows(t, outcomes) && Sent() == old(Sent())
    {
      hide Next, MutateLease, Indexed, Handle;
      t, outcomes := s, past + Outcomes(s, s, UNHANDLED);
      assert past + [] == past;
      if !call.NotRun? {
        t := Next(s, LeaseProtocol.Resume(u, conn, now));
        ResumeReports(s, u, conn, now);
        outcomes := past + Outcomes(s, t, UNHANDLED);
        if t.log != s.log {
          HandleOneMore(show, s.log, past, t.log[|s.log|], UNHANDLED);
        }
        var _ := store.ResumeLease(u, conn, now);
      }
    }

    /** A connection closes: leave, and if the reply arrives and reports a transition, handle it. */
    method Leave(u: UserId, conn: ConnId, now: int, call: Call, handling: Handling, ghost s: Sys,
                 ghost past: seq<Handling>)
      returns (ghost t: Sys, ghost outcomes: seq<Handling>)
      requires Follows(s, past)
      modifies this, store
      ensures t == if call.NotRun? then s else Next(s, LeaseProtocol.Leave(u, conn, now))
      ensures outcomes == past + Outcomes(s, t, HandlingOf(call, handling)) && Follows(t, outcomes)
      ensures !call.Answered? ==> Sent() == old(Sent())
      ensures call.Answered? && t.log != s.log ==> outcomes == past + [handling]
    {
      hide Next, MutateLease, Indexed, Handle;
      t, outcomes := s, past + Outcomes(s, s, UNHANDLED);
      assert past + [] == past;
      if !call.NotRun? {
        t := Next(s, LeaseProtocol.Leave(u, conn, now));
        LeaveReports(s, u, conn, now);
        var reply := store.LeaveLease(u, conn, now);
        outcomes := past + Outcomes(s, t, HandlingOf(call, handling));
        HandledAsReported(show, s, past, u, ByLeave, reply.value, call, handling);
        if call.Answered? {
          var res := ParseLeaseResult(u, reply.value);
          if res.transitioned {
            var _ := HandleOfflineTransition(res, handling.publishOk, handling.insert);
          }
        }
      }
    }
  }

  /** The outcomes of what a step has added to the log. */
  ghost function Outcomes(s: Sys, t: Sys, h: Handling): seq<Handling> {
    if t.log == s.log then [] else [h]
  }

  function HandlingOf(call: Call, handling: Handling): Handling {
    if call.Answered? then handling else UNHANDLED
  }

  lemma ResumeReports(s: Sys, u: UserId, conn: ConnId, now: int)
    requires Indexed(s.store)
    ensures var t := Next(s, LeaseProtocol.Resume(u, conn, now));
      && t.store == MutateLease(s.store, u, "resume", conn, now + GRACE_MS, now).0
      && Indexed(t.store)
      && (t.log == s.log || (|t.log| == |s.log| + 1 && t.log == s.log + [t.log[|s.log|]] && !Published(t.log[|s.log|])))
  {
    hide Settle, Mutated, Settled, LoadState, Indexed;
    MutateSettles(s, LeaseProtocol.Resume(u, conn, now));
  }

  lemma LeaveReports(s: Sys, u: UserId, conn: ConnId, now: int)
    requires Indexed(s.store)
    ensures var t := Next(s, LeaseProtocol.Leave(u, conn, now));
      var (st, reply) := MutateLease(s.store, u, "leave", conn, ZERO_TIME_MS, now);
      && t.store == st && Indexed(st)
      && reply.Ok? && reply.value.version >= 0 && t.log == s.log + Report(u, ByLeave, reply)
  {
    hide Settle;
    MutateSettles(s, LeaseProtocol.Leave(u, conn, now));
    assert UserIndexed(Next(s, LeaseProtocol.Leave(u, conn, now)).store, u);
  }

  /** Handling an answered reply, or nothing if it was lost, is the effect of the event it reports. */
  lemma HandledAsReported(show: UserId -> string, s: Sys, past: seq<Handling>, u: UserId, origin: Origin,
                          reply: LeaseReply, call: Call, handling: Handling)
    requires |past| == |s.log| && reply.version >= 0 && origin != ByResume
    ensures var fx, h := HandleAll(show, s.log, past), HandlingOf(call, handling);
      var log := s.log + Report(u, origin, Ok(reply));
      var outcomes := past + if log == s.log then [] else [h];
      && (log == s.log <==> !reply.transitioned)
      && |outcomes| == |log|
      && HandleAll(show, log, outcomes) ==
           if call.Answered? && reply.transitioned
           then Handle(fx, show, ParseLeaseResult(u, reply), handling.publishOk, handling.insert) else fx
  {
    var h, added := HandlingOf(call, handling), Report(u, origin, Ok(reply));
    if reply.transitioned {
      HandleOneMore(show, s.log, past, added[0], h);
      assert |s.log + added| == |s.log| + 1;
    } else {
      assert s.log + added == s.log && past + [] == past;
    }
  }

  // ---------- The sweeper ----------

  /** What the environment decides about the i-th row of a sweep cycle. */
  datatype RowOutcome = RowOutcome(call: Call, clock: int, handling: Handling)

  /** The step a row of the cycle takes. A sweep that never ran just loses its claim. */
  function RowStep(claim: Claim, outcome: RowOutcome): Step {
    if outcome.call.NotRun? then Drop(claim) else Sweep(claim, outcome.clock)
  }

  /** The system after the first i rows of a sweep cycle, and the outcomes of what they reported. */
  ghost function SweepRows(s: Sys, rows: seq<Claim>, env: nat -> RowOutcome, i: nat): (Sys, seq<Handling>)
    requires i <= |rows|
  {
    if i == 0 then (s, []) else
    var (s', outcomes) := SweepRows(s, rows, env, i - 1);
    var t := Next(s', RowStep(rows[i - 1], env(i - 1)));
    (t, outcomes + Outcomes(s', t, HandlingOf(env(i - 1).call, env(i - 1).handling)))
  }

  /** The steps a sweep cycle takes on the system. */
  function CycleSteps(rows: seq<Claim>, env: nat -> RowOutcome): seq<Step> {
    seq(|rows|, i requires 0 <= i < |rows| => RowStep(rows[i], env(i)))
  }

  /** Each row of a cycle uses up its claim, so those still to be swept are held. */
  lemma {:induction false} CycleIsRun(s: Sys, rows: seq<Claim>, env: nat -> RowOutcome, i: nat)
    requires Indexed(s.store) && i <= |rows| && multiset(rows) <= s.claims
    ensures var t := SweepRows(s, rows, env, i).0;
      && t == Run(s, CycleSteps(rows, env)[..i])
      && Indexed(t.store)
      && t.claims == s.claims - multiset(rows[..i])
  {
    hide Next, Indexed;
    var steps := CycleSteps(rows, env);
    if i == 0 {
      assert steps[..0] == [];
    } else {
      CycleIsRun(s, rows, env, i - 1);
      var t := SweepRows(s, rows, env, i - 1).0;
      assert steps[..i][..i - 1] == steps[..i - 1];
      assert steps[i - 1] == RowStep(rows[i - 1], env(i - 1));
      Draining.StillClaimed(s.claims, rows, i - 1);
      NextKeepsIndexed(t, steps[i - 1]);
      StepUsesClaim(t, steps[i - 1], rows[i - 1]);
    }
  }

  lemma SweepRowsNext(s: Sys, rows: seq<Claim>, env: nat -> RowOutcome, i: nat)
    requires i < |rows|
    ensures var (s', outcomes) := SweepRows(s, rows, env, i);
      var t := Next(s', RowStep(rows[i], env(i)));
      SweepRows(s, rows, env, i + 1) == (t, outcomes + Outcomes(s', t, HandlingOf(env(i).call, env(i).handling)))
  {
  }

  lemma {:induction false} NextRowHeld(s: Sys, rows: seq<Claim>, env: nat -> RowOutcome, i: nat)
    requires Indexed(s.store) && i < |rows| && multiset(rows) <= s.claims
    ensures rows[i] in SweepRows(s, rows, env, i).0.claims
  {
    hide Next, Indexed, SweepRows;
    CycleIsRun(s, rows, env, i);
    Draining.StillClaimed(s.claims, rows, i);
  }

  lemma StepUsesClaim(s: Sys, step: Step, claim: Claim)
    requires claim in s.claims && (step == Drop(claim) || (step.Sweep? && step.claim == claim))
    ensures Next(s, step).claims == s.claims - multiset{claim}
  {
  }

  lemma SweepReportsReply(s: Sys, claim: Claim, clock: int)
    requires Indexed(s.store) && claim in s.claims
    ensures var t := Next(s, Sweep(claim, clock));
      var (st, reply) := SweepUser(s.store, claim.user, clock, claim.dueAt);
      && t.store == st && Indexed(st)
      && reply.Ok? && reply.value.version >= 0 && t.log == s.log + Report(claim.user, BySweep, reply)
  {
    hide Settle, Next;
    SweepSettles(s, Sweep(claim, clock));
    assert UserIndexed(s.store, claim.user);
  }

  lemma DropReportsNothing(s: Sys, claim: Claim)
    ensures Next(s, Drop(claim)).store == s.store && Next(s, Drop(claim)).log == s.log
  {
  }

  function ClocksOf(env: nat -> RowOutcome): nat -> int {
    (i: nat) => env(i).clock
  }

  /** If every sweep of the cycle runs, the cycle is one of the rounds that drain the index. */
  lemma {:induction false} CycleIsRound(s: Sys, now: int, batch: int, rows: seq<Claim>, env: nat -> RowOutcome)
    requires rows == ClaimDueUsers(s.store, now, batch).1
    requires forall i :: 0 <= i < |rows| ==> !env(i).call.NotRun?
    ensures Run(Run(s, [ClaimDue(now, batch)]), CycleSteps(rows, env)) ==
      Run(s, Draining.RoundSteps(s, now, batch, ClocksOf(env)))
  {
    hide Next, ClaimDueUsers;
    Draining.RunConcat(s, [ClaimDue(now, batch)], CycleSteps(rows, env));
    assert CycleSteps(rows, env) == Draining.SweepSteps(rows, ClocksOf(env));
  }

  /** All rows of a claim are forgotten. */
  function DropSteps(rows: seq<Claim>): seq<Step> {
    seq(|rows|, i requires 0 <= i < |rows| => Drop(rows[i]))
  }

  lemma {:induction false} DropsReportNothing(s: Sys, rows: seq<Claim>, i: nat)
    requires i <= |rows| && multiset(rows) <= s.claims
    ensures var t := Run(s, DropSteps(rows)[..i]);
      t.store == s.store && t.log == s.log && t.claims == s.claims - multiset(rows[..i])
  {
    hide Next;
    var steps := DropSteps(rows);
    if i == 0 {
      assert steps[..0] == [];
    } else {
      DropsReportNothing(s, rows, i - 1);
      assert steps[..i][..i - 1] == steps[..i - 1];
      DropReportsNothing(Run(s, steps[..i - 1]), rows[i - 1]);
      Draining.StillClaimed(s.claims, rows, i - 1);
      StepUsesClaim(Run(s, steps[..i - 1]), steps[i - 1], rows[i - 1]);
    }
  }

  class Sweeper {
    const service: Service
    const batch: int

    constructor (service: Service, batch: int)
      ensures this.service == service && this.batch == batch
    {
      this.service, this.batch := service, batch;
    }

    /** One row of a cycle: sweep, and if the reply arrives and reports a transition, hand it on. */
    method SweepRow(claim: Claim, outcome: RowOutcome, ghost s: Sys, ghost past: seq<Handling>)
      requires service.Follows(s, past) && claim in s.claims
      modifies service, service.store
      ensures var t := Next(s, RowStep(claim, outcome));
        service.Follows(t, past + Outcomes(s, t, if outcome.call.Answered? then outcome.handling else UNHANDLED))
      ensures outcome.call.NotRun? ==> service.store.Model() == old(service.store.Model())
      ensures !outcome.call.NotRun? ==> service.store.Model() == Next(s, Sweep(claim, outcome.clock)).store
      ensures !outcome.call.Answered? ==> service.Sent() == old(service.Sent())
    {
      hide Next, SweepUser, Indexed, Handle;
      if outcome.call.NotRun? {
        DropReportsNothing(s, claim);
        assert past + [] == past;
        return;
      }
      SweepReportsReply(s, claim, outcome.clock);
      var reply := service.store.EvalSweepUser(claim.user, outcome.clock, claim.dueAt);
      HandledAsReported(service.show, s, past, claim.user, BySweep, reply.value, outcome.call, outcome.handling);
      if outcome.call.Answered? {
        var res := ParseLeaseResult(claim.user, reply.value);
        if res.transitioned {
          var _ := service.HandleOfflineTransition(res, outcome.handling.publishOk, outcome.handling.insert);
        }
      }
    }

    /** The loop of a sweep cycle over the rows its claim returned. */
    method SweepEach(rows: seq<Claim>, env: nat -> RowOutcome, ghost s: Sys, ghost past: seq<Handling>)
      requires service.Follows(s, past) && multiset(rows) <= s.claims
      modifies service, service.store
      ensures service.Follows(SweepRows(s, rows, env, |rows|).0, past + SweepRows(s, rows, env, |rows|).1)
    {
      hide Next, Indexed, Handle, HandleAll, Outcomes;
      ghost var t, outcomes := s, past;
      assert past + [] == past;
      var i := 0;
      while i < |rows|
        invariant 0 <= i <= |rows|
        invariant t == SweepRows(s, rows, env, i).0 && outcomes == past + SweepRows(s, rows, env, i).1
        invariant service.Follows(t, outcomes)
      {
        hide SweepRows;
        NextRowHeld(s, rows, env, i);
        SweepRowsNext(s, rows, env, i);
        SweepRow(rows[i], env(i), t, outcomes);
        ghost var added := Outcomes(t, Next(t, RowStep(rows[i], env(i))), HandlingOf(env(i).call, env(i).handling));
        assert past + SweepRows(s, rows, env, i).1 + added == past + (SweepRows(s, rows, env, i).1 + added);
        t, outcomes := Next(t, RowStep(rows[i], env(i))), outcomes + added;
        i := i + 1;
      }
    }

    /** sweepOnce: claim up to a batch of due users, then sweep them one by one. A failed call is logged and
        skipped: if the claim was lost on its way back, so are all its rows. */
    method SweepOnce(now: int, call: Call, env: nat -> RowOutcome, ghost s: Sys, ghost past: seq<Handling>)
      returns (rows: seq<Claim>, ghost t: Sys, ghost outcomes: seq<Handling>)
      requires service.Follows(s, past)
      modifies service, service.store
      ensures rows == if call.NotRun? then [] else ClaimDueUsers(s.store, now, batch).1
      ensures call.NotRun? ==> t == s && outcomes == past
      ensures call.ReplyLost? ==> t == Run(Run(s, [ClaimDue(now, batch)]), DropSteps(rows)) && outcomes == past
      ensures call.Answered? ==>
        && t == Run(Run(s, [ClaimDue(now, batch)]), CycleSteps(rows, env))
        && outcomes == past + SweepRows(Run(s, [ClaimDue(now, batch)]), rows, env, |rows|).1
      ensures service.Follows(t, outcomes) && t.claims == s.claims
      ensures call.Answered? && (forall i :: 0 <= i < |rows| ==> !env(i).call.NotRun?) ==>
        t == Run(s, Draining.RoundSteps(s, now, batch, ClocksOf(env)))
      ensures !call.Answered? ==> service.Sent() == old(service.Sent())
    {
      hide Next, Run, ClaimDueUsers, Indexed, Handle, HandleAll, SweepRows;
      rows, t, outcomes := [], s, past;
      if call.NotRun? {
        return;
      }
      ClaimReportsNothing(s, now, batch);
      ghost var claimed := Run(s, [ClaimDue(now, batch)]);
      rows := service.store.EvalClaimDueUsers(now, batch);
      if call.ReplyLost? {
        DropsReportNothing(claimed, rows, |rows|);
        assert DropSteps(rows)[..|rows|] == DropSteps(rows) && rows[..|rows|] == rows;
        t := Run(claimed, DropSteps(rows));
        return;
      }
      SweepEach(rows, env, claimed, past);
      CycleIsRun(claimed, rows, env, |rows|);
      assert CycleSteps(rows, env)[..|rows|] == CycleSteps(rows, env) && rows[..|rows|] == rows;
      if forall i :: 0 <= i < |rows| ==> !env(i).call.NotRun? {
        CycleIsRound(s, now, batch, rows, env);
      }
      t, outcomes := SweepRows(claimed, rows, env, |rows|).0, past + SweepRows(claimed, rows, env, |rows|).1;
    }
  }

  lemma {:induction false} ClaimReportsNothing(s: Sys, now: int, limit: int)
    requires Indexed(s.store)
    ensures var t := Run(s, [ClaimDue(now, limit)]);
      var (st, rows) := ClaimDueUsers(s.store, now, limit);
      && t.store == st && Indexed(st) && t.log == s.log && t.claims == s.claims + multiset(rows)
      && multiset(rows) <= t.claims
  {
    ClaimKeepsIndexed(s.store, now, limit);
    assert [ClaimDue(now, limit)][..0] == [];
  }

  // ---------- The messages over a whole run ----------

  /** Some positions of a sequence of length n, in order. */
  predicate Positions(positions: seq<nat>, n: nat) {
    && (forall k :: 0 <= k < |positions| ==> positions[k] < n)
    && forall j, k :: 0 <= j < k < |positions| ==> positions[j] < positions[k]
  }

  /** What the last event of a log has added to the messages and to the outbox. */
  lemma {:induction false} LastHandled(show: UserId -> string, log: seq<Event>, outcomes: seq<Handling>)
    requires |outcomes| == |log| && log != [] && log[|log| - 1].version >= 0
    ensures var n := |log| - 1;
      var fx := HandleAll(show, log[..n], outcomes[..n]);
      HandleAll(show, log, outcomes) ==
        Effects(fx.published + if Published(log[n]) && outcomes[n].publishOk then [StateOf(log[n])] else [],
                if Kept(log[n], outcomes[n]) then Insert(fx.outbox, KeyOf(show, log[n]), RecordOf(log[n]))
                else fx.outbox)
  {
    var n := |log| - 1;
    hide HandleAll, IdempotencyKey, Insert, WholeSeconds;
    HandleOneMore(show, log[..n], outcomes[..n], log[n], outcomes[n]);
    assert log[..n] + [log[n]] == log && outcomes[..n] + [outcomes[n]] == outcomes;
  }

  /** The published states are those of the published events whose publish succeeded, at the positions sent. */
  ghost predicate SentAt(log: seq<Event>, outcomes: seq<Handling>, published: seq<State>, sent: seq<nat>)
    requires |outcomes| == |log|
  {
    && Positions(sent, |log|)
    && (forall i: nat :: i in sent <==> i < |log| && Published(log[i]) && outcomes[i].publishOk)
    && |published| == |sent|
    && forall k :: 0 <= k < |sent| ==> Published(log[sent[k]]) && published[k] == StateOf(log[sent[k]])
  }

  lemma {:induction false} PublishedOfLog(show: UserId -> string, log: seq<Event>, outcomes: seq<Handling>)
    returns (sent: seq<nat>)
    requires |outcomes| == |log| && forall i :: 0 <= i < |log| ==> log[i].version >= 0
    ensures SentAt(log, outcomes, HandleAll(show, log, outcomes).published, sent)
  {
    hide HandleAll;
    sent := [];
    if log == [] {
      assert HandleAll(show, [], []).published == [] by {
        NothingPublished(show);
      }
    } else {
      var n := |log| - 1;
      sent := PublishedOfLog(show, log[..n], outcomes[..n]);
      LastHandled(show, log, outcomes);
      if Published(log[n]) && outcomes[n].publishOk {
        sent := sent + [n];
      }
    }
  }

  lemma NothingPublished(show: UserId -> string)
    ensures HandleAll(show, [], []) == Effects([], map[])
  {
  }

  /** MAIN: over a whole run, whatever fails, the messages sent are, in the order of the log, the states of exactly
      the offline transitions whose publish succeeded: user, offline, time and version. */
  lemma PublishedAreTheOffline(show: UserId -> string, steps: seq<Step>, outcomes: seq<Handling>)
    returns (sent: seq<nat>)
    requires |outcomes| == |Run(INIT, steps).log|
    ensures var log := Run(INIT, steps).log;
      var published := HandleAll(show, log, outcomes).published;
      && Positions(sent, |log|)
      && (forall i: nat :: i in sent <==>
            i < |log| && log[i].Transition? && !log[i].online && outcomes[i].publishOk)
      && |published| == |sent|
      && (forall k :: 0 <= k < |sent| ==>
            var e := log[sent[k]];
            e.Transition? && published[k] == State(e.user, false, e.lastSeen, e.version))
  {
    hide Run, HandleAll;
    var log := Run(INIT, steps).log;
    forall i | 0 <= i < |log|
      ensures log[i].version >= 0 && (log[i].Transition? ==> (Published(log[i]) <==> !log[i].online))
    {
      VersionsPositive(steps, i);
      if log[i].Transition? {
        PublishedAreOffline(steps, log[i]);
      }
    }
    sent := PublishedOfLog(show, log, outcomes);
    forall k | 0 <= k < |sent| ensures log[sent[k]].Transition? && !log[sent[k]].online {
      assert sent[k] in sent;
    }
  }

  // ---------- The outbox over a whole run ----------

  predicate Recorded(e: Event) {
    Published(e) && !e.online && e.lastSeen.Some?
  }

  function RecordOf(e: Event): Record
    requires Recorded(e)
  {
    Record(e.user, WholeSeconds(e.lastSeen.value), e.version)
  }

  /** The event is recorded, and its insert took effect. */
  predicate Kept(e: Event, h: Handling) {
    Recorded(e) && h.insert.TookEffect()
  }

  function KeyOf(show: UserId -> string, e: Event): string
    requires e.version >= 0
  {
    IdempotencyKey(show, e.user, e.version)
  }

  /** The outbox holds each recorded event of the log whose insert took effect, under its own key, and nothing
      else. */
  ghost predicate OutboxIs(show: UserId -> string, log: seq<Event>, outcomes: seq<Handling>,
                           outbox: map<string, Record>)
    requires |outcomes| == |log| && forall e :: e in log ==> e.version >= 0
  {
    && (forall i :: 0 <= i < |log| && Kept(log[i], outcomes[i]) ==>
          KeyOf(show, log[i]) in outbox && outbox[KeyOf(show, log[i])] == RecordOf(log[i]))
    && (forall key :: key in outbox ==>
          exists i :: 0 <= i < |log| && Kept(log[i], outcomes[i]) && key == KeyOf(show, log[i]))
  }

  lemma {:induction false} OutboxOfLog(show: UserId -> string, log: seq<Event>, outcomes: seq<Handling>)
    requires |outcomes| == |log| && forall e :: e in log ==> e.version >= 0
    requires forall i, j :: 0 <= i < j < |log| ==> KeyOf(show, log[i]) != KeyOf(show, log[j])
    ensures OutboxIs(show, log, outcomes, HandleAll(show, log, outcomes).outbox)
  {
    if log != [] {
      var n := |log| - 1;
      var before, e := log[..n], log[n];
      assert forall i :: 0 <= i < n ==> before[i] == log[i] && log[i] in log;
      OutboxOfLog(show, before, outcomes[..n]);
      var outbox := HandleAll(show, before, outcomes[..n]).outbox;
      assert e in log;
      LastHandled(show, log, outcomes);
      hide HandleAll, KeyOf;
      if Kept(e, outcomes[n]) {
        forall key | key in outbox ensures key != KeyOf(show, e) {
          var i :| 0 <= i < n && Recorded(before[i]) && key == KeyOf(show, before[i]);
        }
        OutboxExtends(show, log, outcomes, outbox);
      } else {
        OutboxSame(show, log, outcomes, outbox);
      }
    }
  }

  lemma OutboxExtends(show: UserId -> string, log: seq<Event>, outcomes: seq<Handling>, outbox: map<string, Record>)
    requires |outcomes| == |log| && log != [] && forall e :: e in log ==> e.version >= 0
    requires forall e :: e in log[..|log| - 1] ==> e in log
    requires var e := log[|log| - 1];
      && Kept(e, outcomes[|log| - 1]) && KeyOf(show, e) !in outbox
      && OutboxIs(show, log[..|log| - 1], outcomes[..|log| - 1], outbox)
    ensures var e := log[|log| - 1]; OutboxIs(show, log, outcomes, outbox[KeyOf(show, e) := RecordOf(e)])
  {
    var n := |log| - 1;
    var e := log[n];
    var outbox' := outbox[KeyOf(show, e) := RecordOf(e)];
    forall i | 0 <= i < |log| && Kept(log[i], outcomes[i])
      ensures KeyOf(show, log[i]) in outbox' && outbox'[KeyOf(show, log[i])] == RecordOf(log[i])
    {
      if i < n {
        assert log[..n][i] == log[i] && outcomes[..n][i] == outcomes[i];
      }
    }
    forall key | key in outbox'
      ensures exists i :: 0 <= i < |log| && Kept(log[i], outcomes[i]) && key == KeyOf(show, log[i])
    {
      if key in outbox {
        var i :| 0 <= i < n && Kept(log[..n][i], outcomes[..n][i]) && key == KeyOf(show, log[..n][i]);
        assert log[i] == log[..n][i] && outcomes[i] == outcomes[..n][i];
      } else {
        assert key == KeyOf(show, log[n]);
      }
    }
  }

  lemma OutboxSame(show: UserId -> string, log: seq<Event>, outcomes: seq<Handling>, outbox: map<string, Record>)
    requires |outcomes| == |log| && log != [] && forall e :: e in log ==> e.version >= 0
    requires forall e :: e in log[..|log| - 1] ==> e in log
    requires !Kept(log[|log| - 1], outcomes[|log| - 1])
    requires OutboxIs(show, log[..|log| - 1], outcomes[..|log| - 1], outbox)
    ensures OutboxIs(show, log, outcomes, outbox)
  {
    var n := |log| - 1;
    forall i | 0 <= i < |log| && Kept(log[i], outcomes[i])
      ensures KeyOf(show, log[i]) in outbox && outbox[KeyOf(show, log[i])] == RecordOf(log[i])
    {
      assert log[..n][i] == log[i] && outcomes[..n][i] == outcomes[i];
    }
    forall key | key in outbox
      ensures exists i :: 0 <= i < |log| && Kept(log[i], outcomes[i]) && key == KeyOf(show, log[i])
    {
      var i :| 0 <= i < n && Kept(log[..n][i], outcomes[..n][i]) && key == KeyOf(show, log[..n][i]);
      assert log[i] == log[..n][i] && outcomes[i] == outcomes[..n][i];
    }
  }

  lemma {:induction false} RunKeys(show: UserId -> string, steps: seq<Step>)
    requires PrintsIds(show)
    ensures var log := Run(INIT, steps).log;
      && (forall e :: e in log ==> e.version >= 0)
      && (forall i, j :: 0 <= i < j < |log| ==> KeyOf(show, log[i]) != KeyOf(show, log[j]))
  {
    hide Run;
    var log := Run(INIT, steps).log;
    forall e | e in log ensures e.version >= 0 {
      var i :| 0 <= i < |log| && log[i] == e;
      VersionsPositive(steps, i);
    }
    forall i, j | 0 <= i < j < |log| ensures KeyOf(show, log[i]) != KeyOf(show, log[j]) {
      KeysDistinct(show, steps, i, j);
    }
  }

  /** Under user, dot, version the outbox holds the event's user, version and time, the time to the whole second. */
  predicate HoldsRecordOf(outbox: map<string, Record>, show: UserId -> string, e: Event)
    requires Recorded(e) && e.version >= 0
  {
    var key := show(e.user) + "." + Decimal(e.version);
    && key in outbox && outbox[key].user == e.user && outbox[key].version == e.version
    && outbox[key].lastSeen % 1000 == 0 && outbox[key].lastSeen <= e.lastSeen.value < outbox[key].lastSeen + 1000
  }

  lemma RecordIsHeld(outbox: map<string, Record>, show: UserId -> string, e: Event)
    requires Recorded(e) && e.version >= 0
    requires KeyOf(show, e) in outbox && outbox[KeyOf(show, e)] == RecordOf(e)
    ensures HoldsRecordOf(outbox, show, e)
  {
  }

  /** MAIN: over a whole run, whatever fails, the outbox holds the record of an offline transition with a time if
      and only if its insert took effect, and it holds nothing else: a lost insert is never made up for, and the
      idempotency key never swallows a record. */
  lemma {:induction false} OutboxHoldsTheInserted(show: UserId -> string, steps: seq<Step>, outcomes: seq<Handling>)
    requires PrintsIds(show) && |outcomes| == |Run(INIT, steps).log|
    ensures var log := Run(INIT, steps).log;
      var outbox := HandleAll(show, log, outcomes).outbox;
      && (forall e :: e in log ==> e.version >= 0)
      && (forall e :: e in log && e.Transition? ==> (Recorded(e) <==> !e.online && e.lastSeen.Some?))
      && OutboxIs(show, log, outcomes, outbox)
      && (forall i :: 0 <= i < |log| && Recorded(log[i]) ==>
            (KeyOf(show, log[i]) in outbox <==> outcomes[i].insert.TookEffect()))
      && (forall i :: 0 <= i < |log| && Recorded(log[i]) && !outcomes[i].insert.Refused? ==>
            HoldsRecordOf(outbox, show, log[i]))
  {
    hide Run, HandleAll, KeyOf, HoldsRecordOf;
    var log := Run(INIT, steps).log;
    RunKeys(show, steps);
    forall e | e in log && e.Transition? ensures Recorded(e) <==> !e.online && e.lastSeen.Some? {
      PublishedAreOffline(steps, e);
    }
    OutboxOfLog(show, log, outcomes);
    var outbox := HandleAll(show, log, outcomes).outbox;
    forall i | 0 <= i < |log| && Recorded(log[i]) && !outcomes[i].insert.Refused?
      ensures HoldsRecordOf(outbox, show, log[i])
    {
      RecordIsHeld(outbox, show, log[i]);
    }
    forall i | 0 <= i < |log| && Recorded(log[i]) && KeyOf(show, log[i]) in outbox
      ensures outcomes[i].insert.TookEffect()
    {
      var j :| 0 <= j < |log| && Kept(log[j], outcomes[j]) && KeyOf(show, log[i]) == KeyOf(show, log[j]);
      assert i == j;
    }
  }
}
