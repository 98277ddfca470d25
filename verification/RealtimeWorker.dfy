/** The worker with its transactions carried out statement by statement, proved against Outbox. */
module RealtimeWorker {
  import opened Common
  import opened Outbox

  /** An open transaction: its own view of the table, discarded unless it commits. An I/O error aborts it. */
  class Tx {
    var draft: map<EventId, Row>
    var aborted: bool

    constructor (table: map<EventId, Row>)
      ensures draft == table && !aborted
    {
      draft, aborted := table, false;
    }

    /** Tells whether the event could be claimed. */
    method MarkProcessing(id: EventId, ioError: bool) returns (ok: bool)
      requires !aborted
      modifies this
      ensures ok <==> !ioError && Claimable(old(draft), id)
      ensures aborted <==> ioError
      ensures draft == if ok then old(draft)[id := old(draft)[id].(status := Processing)] else old(draft)
    {
      if ioError {
        aborted := true;
        return false;
      }
      if !Claimable(draft, id) {
        return false;
      }
      draft := draft[id := draft[id].(status := Processing)];
      return true;
    }

    method MarkSucceeded(id: EventId, ioError: Option<bool>) returns (err: Option<bool>)
      requires id in draft
      modifies this
      ensures err == ioError && aborted == (old(aborted) || err.Some?)
      ensures draft == if err.None? then old(draft)[id := old(draft)[id].(status := Succeeded)] else old(draft)
    {
      if ioError.Some? {
        aborted := true;
      } else {
        draft := draft[id := draft[id].(status := Succeeded)];
      }
      return ioError;
    }

    method MarkFailedWithRetry(id: EventId, retryCount: nat, nextAttempt: int, ioError: Option<bool>)
      returns (err: Option<bool>)
      requires id in draft
      modifies this
      ensures err == ioError && aborted == (old(aborted) || err.Some?)
      ensures draft == if err.None? then old(draft)[id :=
          old(draft)[id].(status := Failed, retryCount := retryCount, nextAttempt := nextAttempt)] else old(draft)
    {
      if ioError.Some? {
        aborted := true;
      } else {
        draft := draft[id := draft[id].(status := Failed, retryCount := retryCount, nextAttempt := nextAttempt)];
      }
      return ioError;
    }

    /** processEventInTx; the error, if any, is whether it is retryable. */
    method ProcessEvent(e: Event, f: Faults) returns (err: Option<bool>)
      requires !aborted
      modifies this
      ensures var claimed := !f.claimError && Claimable(old(draft), e.id);
        && (err == if claimed then f.markError else None)
        && (aborted <==> f.claimError || err.Some?)
        && (err.None? ==>
              draft == if claimed then old(draft)[e.id := Settled(old(draft)[e.id], e, f)] else old(draft))
    {
      var claimed := MarkProcessing(e.id, f.claimError);
      if !claimed {
        return None;
      }
      if !f.dispatchOk {
        var retryCount := e.retryCount + 1;
        err := MarkFailedWithRetry(e.id, retryCount, Backoff(f.now, retryCount), f.markError);
      } else {
        err := MarkSucceeded(e.id, f.markError);
      }
    }
  }

  class Worker {
    /** The committed outbox table. */
    var table: map<EventId, Row>
    ghost var fetched: set<Event>
    ghost var log: seq<Entry>

    constructor ()
      ensures Valid() && State() == EMPTY
    {
      table, fetched, log := map[], {}, [];
    }

    ghost function State(): Sys
      reads this
    {
      Sys(table, fetched, log)
    }

    ghost predicate Valid()
      reads this
    {
      Inv(State())
    }

    /** One attempt of WithTx: begin, process, and commit or roll back. */
    method Attempt(e: Event, f: Faults) returns (verdict: Verdict)
      modifies this
      ensures State() == AfterAttempt(old(State()), e, f)
      ensures verdict == AttemptVerdict(old(State()), e, f)
      ensures verdict == TryAgain <==> Retried(Claimable(old(table), e.id), f)
    {
      AttemptOf(State(), e, f);
      if !f.begins {
        return GiveUp;
      }
      var tx := new Tx(table);
      var err := tx.ProcessEvent(e, f);
      if err.Some? {
        return if f.rollbackOk && err.value then TryAgain else GiveUp;
      }
      if tx.aborted {
        return if f.commit.Committed? || f.commit == Refused(true) then TryAgain else GiveUp;
      }
      if !f.commit.Refused? {
        log := if Ready(State(), e, f) then log + [Entry(e, f.dispatchOk, f.now)] else log;
        table := tx.draft;
      }
      return if f.commit.Committed? then Done else if f.commit == Refused(true) then TryAgain else GiveUp;
    }

    method ProcessSingleEvent(e: Event, faults: nat -> Faults) returns (ok: bool)
      modifies this
      ensures (State(), ok) == AfterEvent(old(State()), e, faults, 0)
      ensures ok <==> Acknowledged(Claimable(old(table), e.id), faults)
      ensures RowSettled(old(State()), State(), e, faults, true)
    {
      hide AfterAttempt, AttemptVerdict, Acknowledged, RowSettled;
      EventSettledIff(State(), e, faults);
      NothingSettled(State(), e, faults);
      EventSettlesRow(State(), State(), e, faults);
      var attempt := 0;
      while attempt < MAX_ATTEMPTS
        invariant attempt < MAX_ATTEMPTS
        invariant AfterEvent(State(), e, faults, attempt) == AfterEvent(old(State()), e, faults, 0)
        decreases MAX_ATTEMPTS - attempt
      {
        var verdict := Attempt(e, faults(attempt));
        if verdict != TryAgain || attempt + 1 == MAX_ATTEMPTS {
          return verdict == Done;
        }
        attempt := attempt + 1;
      }
      return false;
    }

    /** The loop of processBatch. */
    method ProcessEvents(events: seq<Event>, faults: (nat, nat) -> Faults) returns (succeeded: nat, failed: nat)
      requires Valid() && DistinctEvents(events) && forall e :: e in events ==> e in fetched
      modifies this
      ensures forall id :: id in old(table) && old(table)[id].eventType !in OWNED ==>
        id in table && table[id] == old(table)[id]
      ensures Valid() && State() == AfterEvents(old(State()), events, faults, |events|)
      ensures succeeded + failed == |events|
      ensures succeeded == |AcknowledgedEvents(old(State()), events, faults, |events|)|
    {
      hide Inv, AfterEvent, AcknowledgedEvents, DistinctEvents;
      succeeded, failed := 0, 0;
      ghost var s := State();
      BatchSparesOthers(s, events, faults, |events|);
      NobodyAcknowledged(s, events, faults);
      for k := 0 to |events|
        invariant Valid() && fetched == s.fetched
        invariant State() == AfterEvents(s, events, faults, k)
        invariant succeeded + failed == k
        invariant succeeded == |AcknowledgedEvents(s, events, faults, k)|
      {
        BatchAcknowledges(s, events, faults, k);
        EventKeepsInv(State(), events[k], FaultsOf(faults, k), 0);
        var ok := ProcessSingleEvent(events[k], FaultsOf(faults, k));
        if ok {
          succeeded := succeeded + 1;
        } else {
          failed := failed + 1;
        }
      }
    }

    /** processBatch: ids is what the fetch returns, or fails to. */
    method ProcessBatch(ids: Option<seq<EventId>>, limit: nat, now: int, faults: (nat, nat) -> Faults)
      returns (succeeded: nat, failed: nat)
      requires Valid() && (ids.Some? ==> Fetchable(table, ids.value, limit, now))
      modifies this
      ensures Valid()
      ensures ids.None? ==> State() == old(State())
      ensures forall id :: id in old(table) && old(table)[id].eventType !in OWNED ==>
        id in table && table[id] == old(table)[id]
      ensures ids.Some? ==> succeeded + failed == |ids.value| <= limit
      ensures ids.Some? ==>
        State() == AfterEvents(Outbox.Next(old(State()), Outbox.Fetch(ids.value, limit, now)),
                               Snapshots(old(table), ids.value), faults, |ids.value|)
      ensures old(CountsExactly(State())) ==> CountsExactly(State())
      ensures ids.Some? ==> forall i :: 0 <= i < |ids.value| ==>
        RowSettled(old(State()), State(), Snapshot(old(table), ids.value[i]), FaultsOf(faults, i), true)
      ensures ids.Some? ==>
        succeeded == |set i: nat | i < |ids.value| && Acknowledged(true, FaultsOf(faults, i))|
    {
      hide Inv, CountsExactly, FreshBatch, AfterEvents, RowSettled, Acknowledged;
      if ids.None? {
        return 0, 0;
      }
      var events := Snapshots(table, ids.value);
      ghost var s := Outbox.Next(State(), Outbox.Fetch(ids.value, limit, now));
      NextKeepsInv(State(), Outbox.Fetch(ids.value, limit, now));
      if CountsExactly(State()) {
        FetchedAreFresh(State(), ids.value, limit, now);
        BatchKeepsCounts(s, events, faults, |events|);
      }
      FetchedAll(table, fetched, ids.value);
      fetched := s.fetched;
      succeeded, failed := ProcessEvents(events, faults);
      BatchSettles(s, events, faults, |events|);
      forall i | 0 <= i < |events| ensures RowSettled(old(State()), State(), events[i], FaultsOf(faults, i), true) {
        SameTable(s, old(State()), State(), events[i], FaultsOf(faults, i));
      }
      assert AcknowledgedEvents(s, events, faults, |events|) ==
        set i: nat | i < |ids.value| && Acknowledged(true, FaultsOf(faults, i));
    }
  }

  lemma NobodyAcknowledged(s: Sys, events: seq<Event>, faults: (nat, nat) -> Faults)
    ensures AcknowledgedEvents(s, events, faults, 0) == {}
  {
  }

  lemma SameTable(s: Sys, s': Sys, t: Sys, e: Event, faults: nat -> Faults)
    requires s.table == s'.table && RowSettled(s, t, e, faults, true)
    ensures RowSettled(s', t, e, faults, true)
  {
  }

  lemma FetchedAll(table: map<EventId, Row>, fetched: set<Event>, ids: seq<EventId>)
    requires forall i :: 0 <= i < |ids| ==> ids[i] in table
    ensures forall e :: e in Snapshots(table, ids) ==>
      e in fetched + set id | id in ids && id in table :: Snapshot(table, id)
  {
    forall e | e in Snapshots(table, ids)
      ensures e in fetched + set id | id in ids && id in table :: Snapshot(table, id)
    {
      var i :| 0 <= i < |ids| && Snapshot(table, ids[i]) == e;
      assert ids[i] in ids;
    }
  }
}
