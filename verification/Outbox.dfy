/** The realtime consumer of the outbox as a protocol: committed rows, events fetched by any number of
    workers, and one transaction attempt per event at a time, under every pattern of faults. */
module Outbox {
  import opened Common

  type EventId = UUID

  datatype Status = Pending | Processing | Succeeded | Failed | DeadLetter

  datatype Row = Row(eventType: string, status: Status, retryCount: nat, nextAttempt: int)

  /** What a worker keeps of a fetched row. */
  datatype Event = Event(id: EventId, eventType: string, retryCount: nat)

  const OWNED: set<string> := {
    "chat.message.sent", "chat.room.created", "chat.room.updated", "notification.created", "notification.updated"}

  const SECOND := 1000

  /** withRetry's limit on attempts at one transaction. */
  const MAX_ATTEMPTS := 3

  /** A refused commit takes no effect, and may be retryable: a serialization failure, a deadlock or an
      unexpected rollback. A commit whose acknowledgement is lost takes effect, and the worker sees a
      connection error, which is not retryable. */
  datatype Commit = Committed | Refused(retryable: bool) | Lost

  /** What the environment does to one attempt. markError is the I/O error of the last status update, with
      whether it is retryable. */
  datatype Faults = Faults(begins: bool, claimError: bool, dispatchOk: bool, now: int,
                           markError: Option<bool>, rollbackOk: bool, commit: Commit)

  /** A committed transaction that changed its row. */
  datatype Entry = Entry(event: Event, dispatchOk: bool, at: int)

  datatype Sys = Sys(table: map<EventId, Row>, fetched: set<Event>, log: seq<Entry>)

  datatype Verdict = Done | TryAgain | GiveUp

  predicate Claimable(table: map<EventId, Row>, id: EventId) {
    id in table && table[id].status in {Pending, Failed}
  }

  /** What FetchPendingBatch may return; order and locks held by others are left open. */
  predicate Fetchable(table: map<EventId, Row>, ids: seq<EventId>, limit: nat, now: int) {
    && |ids| <= limit
    && (forall i, j :: 0 <= i < j < |ids| ==> ids[i] != ids[j])
    && forall i :: 0 <= i < |ids| ==>
         Claimable(table, ids[i]) && table[ids[i]].nextAttempt <= now && table[ids[i]].eventType in OWNED
  }

  function Snapshot(table: map<EventId, Row>, id: EventId): Event
    requires id in table
  {
    Event(id, table[id].eventType, table[id].retryCount)
  }

  function Snapshots(table: map<EventId, Row>, ids: seq<EventId>): seq<Event>
    requires forall i :: 0 <= i < |ids| ==> ids[i] in table
  {
    seq(|ids|, i requires 0 <= i < |ids| => Snapshot(table, ids[i]))
  }

  function Backoff(now: int, retryCount: nat): int {
    now + retryCount * SECOND
  }

  /** The row once a transaction about it commits. */
  function Settled(row: Row, e: Event, f: Faults): Row {
    if f.dispatchOk then row.(status := Succeeded)
    else row.(status := Failed, retryCount := e.retryCount + 1, nextAttempt := Backoff(f.now, e.retryCount + 1))
  }

  /** The transaction reaches its commit with the row updated. */
  predicate Ready(s: Sys, e: Event, f: Faults) {
    f.begins && !f.claimError && Claimable(s.table, e.id) && f.markError.None?
  }

  /** One attempt takes effect as a whole or not at all. */
  function AfterAttempt(s: Sys, e: Event, f: Faults): Sys {
    if Ready(s, e, f) && !f.commit.Refused?
    then s.(table := s.table[e.id := Settled(s.table[e.id], e, f)], log := s.log + [Entry(e, f.dispatchOk, f.now)])
    else s
  }

  /** How withRetry goes on. A claim that failed with an I/O error is swallowed, so the aborted
      transaction is committed, which the driver reports as a retryable rollback. */
  function AttemptVerdict(s: Sys, e: Event, f: Faults): Verdict {
    if !f.begins then GiveUp
    else if f.claimError then if f.commit.Committed? || f.commit == Refused(true) then TryAgain else GiveUp
    else if Claimable(s.table, e.id) && f.markError.Some?
    then if f.rollbackOk && f.markError.value then TryAgain else GiveUp
    else if f.commit.Committed? then Done
    else if f.commit == Refused(true) then TryAgain else GiveUp
  }

  /** processSingleEvent from the given attempt on; the result tells whether it succeeded. */
  function AfterEvent(s: Sys, e: Event, faults: nat -> Faults, attempt: nat): (Sys, bool)
    requires attempt < MAX_ATTEMPTS
    decreases MAX_ATTEMPTS - attempt
  {
    var t, verdict := AfterAttempt(s, e, faults(attempt)), AttemptVerdict(s, e, faults(attempt));
    if verdict == TryAgain && attempt + 1 < MAX_ATTEMPTS then AfterEvent(t, e, faults, attempt + 1)
    else (t, verdict == Done)
  }

  function FaultsOf(faults: (nat, nat) -> Faults, event: nat): nat -> Faults {
    (attempt: nat) => faults(event, attempt)
  }

  /** processBatch over the first k fetched events. */
  function AfterEvents(s: Sys, events: seq<Event>, faults: (nat, nat) -> Faults, k: nat): Sys
    requires k <= |events|
  {
    if k == 0 then s
    else AfterEvent(AfterEvents(s, events, faults, k - 1), events[k - 1], FaultsOf(faults, k - 1), 0).0
  }

  // ---------- Runs ----------

  datatype Step =
    | Insert(id: EventId, eventType: string, at: int)
    | Fetch(ids: seq<EventId>, limit: nat, now: int)
    | Attempt(event: Event, faults: Faults)
    | OtherConsumer(id: EventId, row: Row)
    | ResetStuck(stale: set<EventId>, now: int)

  /** ResetStuckEvents, which the other consumer runs on the whole table: rows too long in processing start
      again. */
  function AfterReset(table: map<EventId, Row>, stale: set<EventId>, now: int): map<EventId, Row> {
    map id | id in table ::
      if id in stale && table[id].status == Processing
      then table[id].(status := Pending, retryCount := table[id].retryCount + 1, nextAttempt := now)
      else table[id]
  }

  /** Any number of workers: an attempt may be at any event fetched by anyone at any earlier time. The
      other consumer, whose scope excludes the owned types, keeps to its own rows. */
  ghost predicate Enabled(s: Sys, step: Step) {
    match step
    case Insert(id, _, _) => id !in s.table
    case Fetch(ids, limit, now) => Fetchable(s.table, ids, limit, now)
    case Attempt(e, _) => e in s.fetched
    case OtherConsumer(id, row) =>
      id in s.table && s.table[id].eventType !in OWNED && row.eventType == s.table[id].eventType
    case ResetStuck(_, _) => true
  }

  ghost function Next(s: Sys, step: Step): Sys
    requires Enabled(s, step)
  {
    match step
    case Insert(id, eventType, at) => s.(table := s.table[id := Row(eventType, Pending, 0, at)])
    case Fetch(ids, _, _) => s.(fetched := s.fetched + set id | id in ids && id in s.table :: Snapshot(s.table, id))
    case Attempt(e, f) => AfterAttempt(s, e, f)
    case OtherConsumer(id, row) => s.(table := s.table[id := row])
    case ResetStuck(stale, now) => s.(table := AfterReset(s.table, stale, now))
  }

  const EMPTY := Sys(map[], {}, [])

  ghost predicate Runs(s: Sys, steps: seq<Step>, t: Sys)
    decreases steps
  {
    if steps == [] then s == t
    else Enabled(s, steps[0]) && Runs(Next(s, steps[0]), steps[1..], t)
  }

  // ---------- What a row says about the log ----------

  function Failures(log: seq<Entry>, id: EventId): nat {
    if log == [] then 0
    else Failures(log[..|log| - 1], id) +
         if log[|log| - 1].event.id == id && !log[|log| - 1].dispatchOk then 1 else 0
  }

  function Last(log: seq<Entry>, id: EventId): Option<Entry> {
    if log == [] then None
    else if log[|log| - 1].event.id == id then Some(log[|log| - 1])
    else Last(log[..|log| - 1], id)
  }

  /** The row is what the last committed transaction about it made of it, and never Processing. */
  predicate Reflects(row: Row, last: Option<Entry>) {
    match last
    case None => row.status == Pending && row.retryCount == 0
    case Some(x) =>
      if x.dispatchOk then row.status == Succeeded
      else row.status == Failed && row.retryCount == x.event.retryCount + 1 &&
           row.nextAttempt == Backoff(x.at, row.retryCount)
  }

  ghost predicate Inv(s: Sys) {
    && (forall id :: id in s.table && s.table[id].eventType in OWNED ==> Reflects(s.table[id], Last(s.log, id)))
    && (forall id :: id in s.table && s.table[id].eventType in OWNED ==> s.table[id].retryCount <= Failures(s.log, id))
    && (forall e :: e in s.fetched ==>
          e.id in s.table && e.eventType == s.table[e.id].eventType && e.eventType in OWNED &&
          e.retryCount <= Failures(s.log, e.id))
    && (forall i :: 0 <= i < |s.log| ==> s.log[i].event.id in s.table)
    && (forall i, j :: 0 <= i < j < |s.log| && s.log[i].event.id == s.log[j].event.id ==> !s.log[i].dispatchOk)
  }

  /** After a delivery a row is not claimable any more. */
  lemma {:induction false} LastIsLatest(log: seq<Entry>, id: EventId, i: nat)
    requires i < |log| && log[i].event.id == id
    ensures Last(log, id).Some?
    ensures log[i].dispatchOk && (forall j :: i < j < |log| ==> log[j].event.id != id) ==>
      Last(log, id).value.dispatchOk
  {
    if i < |log| - 1 {
      var shorter := log[..|log| - 1];
      assert shorter[i] == log[i];
      if log[|log| - 1].event.id != id {
        assert forall j :: i < j < |shorter| ==> shorter[j] == log[j];
        LastIsLatest(shorter, id, i);
      }
    }
  }

  lemma {:induction false} Appended(log: seq<Entry>, x: Entry, id: EventId)
    ensures Last(log + [x], id) == if x.event.id == id then Some(x) else Last(log, id)
    ensures Failures(log + [x], id) == Failures(log, id) + if x.event.id == id && !x.dispatchOk then 1 else 0
  {
    assert (log + [x])[..|log|] == log;
  }

  lemma {:induction false} Unmentioned(log: seq<Entry>, id: EventId)
    requires forall i :: 0 <= i < |log| ==> log[i].event.id != id
    ensures Last(log, id) == None && Failures(log, id) == 0
  {
    if log != [] {
      Unmentioned(log[..|log| - 1], id);
    }
  }

  lemma AttemptKeepsInv(s: Sys, e: Event, f: Faults)
    requires Inv(s) && e in s.fetched
    ensures Inv(AfterAttempt(s, e, f))
  {
    hide Last, Failures;
    if Ready(s, e, f) && !f.commit.Refused? {
      var x := Entry(e, f.dispatchOk, f.now);
      var t := AfterAttempt(s, e, f);
      forall id ensures Last(t.log, id) == if e.id == id then Some(x) else Last(s.log, id)
        ensures Failures(t.log, id) == Failures(s.log, id) + if e.id == id && !x.dispatchOk then 1 else 0
      {
        Appended(s.log, x, id);
      }
      forall i | 0 <= i < |s.log| && s.log[i].event.id == e.id ensures !s.log[i].dispatchOk {
        LastIsLatest(s.log, e.id, i);
      }
    }
  }

  lemma NextKeepsInv(s: Sys, step: Step)
    requires Inv(s) && Enabled(s, step)
    ensures Inv(Next(s, step))
  {
    match step
    case Insert(id, _, _) => Unmentioned(s.log, id);
    case Fetch(ids, _, _) =>
    case Attempt(e, f) => AttemptKeepsInv(s, e, f);
    case OtherConsumer(_, _) =>
    case ResetStuck(stale, now) => ResetSparesReflecting(s, stale, now);
  }

  /** The repair makes exactly the stale rows in processing pending again, due at once, and counts a retry. */
  lemma ResetRestartsStuck(table: map<EventId, Row>, stale: set<EventId>, now: int)
    ensures var after := AfterReset(table, stale, now);
      && after.Keys == table.Keys
      && forall id :: id in table ==>
           if id in stale && table[id].status == Processing
           then after[id] == Row(table[id].eventType, Pending, table[id].retryCount + 1, now)
           else after[id] == table[id]
  {
  }

  lemma ResetSparesReflecting(s: Sys, stale: set<EventId>, now: int)
    requires Inv(s)
    ensures forall id :: id in s.table && s.table[id].eventType in OWNED ==>
      AfterReset(s.table, stale, now)[id] == s.table[id]
  {
    forall id | id in s.table && s.table[id].eventType in OWNED ensures s.table[id].status != Processing {
      assert Reflects(s.table[id], Last(s.log, id));
    }
  }

  /** MAIN: whatever fails and however many workers interleave, at every committed moment an owned row is
      never left processing; it is succeeded exactly when its last committed transaction dispatched it
      without error; if it is failed, its next attempt is as many seconds after that failure as its retry
      count says; the retry count never exceeds the number of committed failures; and no event is settled
      again once a committed transaction has delivered it. */
  lemma {:induction false} RowsReflectTheLog(steps: seq<Step>, t: Sys)
    requires Runs(EMPTY, steps, t)
    ensures forall id :: id in t.table && t.table[id].eventType in OWNED ==>
      && var row := t.table[id]; var last := Last(t.log, id);
      && row.status != Processing && row.status != DeadLetter
      && (row.status == Succeeded <==> last.Some? && last.value.dispatchOk)
      && (row.status == Failed <==> last.Some? && !last.value.dispatchOk)
      && (row.status == Failed ==> row.nextAttempt == last.value.at + row.retryCount * SECOND)
      && row.retryCount <= Failures(t.log, id)
    ensures forall i, j :: 0 <= i < j < |t.log| && t.log[i].event.id == t.log[j].event.id ==> !t.log[i].dispatchOk
  {
    InvHolds(EMPTY, steps, t);
  }

  lemma {:induction false} InvHolds(s: Sys, steps: seq<Step>, t: Sys)
    requires Inv(s) && Runs(s, steps, t)
    ensures Inv(t)
    decreases steps
  {
    hide Inv;
    if steps != [] {
      NextKeepsInv(s, steps[0]);
      InvHolds(Next(s, steps[0]), steps[1..], t);
    }
  }

  /** MAIN: the repair of stuck events, although it does not look at types, never touches a row of this
      consumer, after any run. */
  lemma {:induction false} ResetSparesOwned(steps: seq<Step>, t: Sys, stale: set<EventId>, now: int)
    requires Runs(EMPTY, steps, t)
    ensures forall id :: id in t.table && t.table[id].eventType in OWNED ==>
      AfterReset(t.table, stale, now)[id] == t.table[id]
  {
    InvHolds(EMPTY, steps, t);
    ResetSparesReflecting(t, stale, now);
  }

  lemma {:induction false} EventKeepsInv(s: Sys, e: Event, faults: nat -> Faults, attempt: nat)
    requires attempt < MAX_ATTEMPTS && Inv(s) && e in s.fetched
    ensures Inv(AfterEvent(s, e, faults, attempt).0) && AfterEvent(s, e, faults, attempt).0.fetched == s.fetched
    decreases MAX_ATTEMPTS - attempt
  {
    hide Inv;
    AttemptKeepsInv(s, e, faults(attempt));
    if AttemptVerdict(s, e, faults(attempt)) == TryAgain && attempt + 1 < MAX_ATTEMPTS {
      EventKeepsInv(AfterAttempt(s, e, faults(attempt)), e, faults, attempt + 1);
    }
  }

  /** An attempt touches no row but its own. */
  lemma AttemptSparesOthers(s: Sys, e: Event, f: Faults)
    requires Inv(s) && e in s.fetched
    ensures var t := AfterAttempt(s, e, f);
      t.table.Keys == s.table.Keys && forall id :: id in s.table && id != e.id ==> t.table[id] == s.table[id]
  {
  }

  lemma {:induction false} EventSparesOthers(s: Sys, e: Event, faults: nat -> Faults, attempt: nat)
    requires attempt < MAX_ATTEMPTS && Inv(s) && e in s.fetched
    ensures var t := AfterEvent(s, e, faults, attempt).0;
      t.table.Keys == s.table.Keys && forall id :: id in s.table && id != e.id ==> t.table[id] == s.table[id]
    decreases MAX_ATTEMPTS - attempt
  {
    hide Inv;
    AttemptSparesOthers(s, e, faults(attempt));
    AttemptKeepsInv(s, e, faults(attempt));
    if AttemptVerdict(s, e, faults(attempt)) == TryAgain && attempt + 1 < MAX_ATTEMPTS {
      EventSparesOthers(AfterAttempt(s, e, faults(attempt)), e, faults, attempt + 1);
    }
  }

  /** MAIN: a batch changes no row but those of its own events; in particular, rows of types outside the owned
      set never change, under any faults. */
  lemma {:induction false} BatchSparesOthers(s: Sys, events: seq<Event>, faults: (nat, nat) -> Faults, k: nat)
    requires Inv(s) && k <= |events| && forall i :: 0 <= i < |events| ==> events[i] in s.fetched
    ensures var t := AfterEvents(s, events, faults, k);
      && Inv(t) && t.fetched == s.fetched && t.table.Keys == s.table.Keys
      && (forall id :: id in s.table && (forall i :: 0 <= i < k ==> events[i].id != id) ==> t.table[id] == s.table[id])
      && (forall id :: id in s.table && s.table[id].eventType !in OWNED ==> t.table[id] == s.table[id])
  {
    hide Inv;
    if k > 0 {
      BatchSparesOthers(s, events, faults, k - 1);
      var t := AfterEvents(s, events, faults, k - 1);
      EventKeepsInv(t, events[k - 1], FaultsOf(faults, k - 1), 0);
      EventSparesOthers(t, events[k - 1], FaultsOf(faults, k - 1), 0);
      FetchedAreOwned(s, events[k - 1]);
    }
  }

  lemma FetchedAreOwned(s: Sys, e: Event)
    requires Inv(s) && e in s.fetched
    ensures e.id in s.table && s.table[e.id].eventType in OWNED
  {
  }

  // ---------- One worker ----------

  /** Every owned row counts its committed failures exactly. */
  ghost predicate CountsExactly(s: Sys) {
    forall id :: id in s.table && s.table[id].eventType in OWNED ==> s.table[id].retryCount == Failures(s.log, id)
  }

  /** The worker's copy of the row is still current. */
  predicate Current(s: Sys, e: Event) {
    e.id in s.table && s.table[e.id].retryCount == e.retryCount
  }

  /** MAIN: an attempt keeps the counts exact if and only if it does not commit a failure of an event whose
      copy is out of date. */
  lemma CountExactIff(s: Sys, e: Event, f: Faults)
    requires Inv(s) && CountsExactly(s) && e in s.fetched
    ensures CountsExactly(AfterAttempt(s, e, f)) <==>
      Current(s, e) || f.dispatchOk || !Ready(s, e, f) || f.commit.Refused?
  {
    if Ready(s, e, f) && !f.commit.Refused? {
      var x, t := Entry(e, f.dispatchOk, f.now), AfterAttempt(s, e, f);
      forall id ensures Failures(t.log, id) == Failures(s.log, id) + if e.id == id && !x.dispatchOk then 1 else 0 {
        Appended(s.log, x, id);
      }
      assert e.id in t.table && t.table[e.id].eventType in OWNED;
    }
  }

  /** What one worker's handling of an event keeps. */
  lemma {:induction false} EventKeepsCounts(s: Sys, e: Event, faults: nat -> Faults, attempt: nat)
    requires attempt < MAX_ATTEMPTS && Inv(s) && CountsExactly(s) && e in s.fetched && Current(s, e)
    ensures var t := AfterEvent(s, e, faults, attempt).0;
      && Inv(t) && CountsExactly(t) && t.fetched == s.fetched && t.table.Keys == s.table.Keys
      && forall id :: id in s.table && id != e.id ==> t.table[id] == s.table[id]
    decreases MAX_ATTEMPTS - attempt
  {
    hide Inv, CountsExactly;
    var f := faults(attempt);
    AttemptKeepsInv(s, e, f);
    CountExactIff(s, e, f);
    if AttemptVerdict(s, e, f) == TryAgain && attempt + 1 < MAX_ATTEMPTS {
      assert AfterAttempt(s, e, f) == s;
      EventKeepsCounts(s, e, faults, attempt + 1);
    }
  }

  /** The events of a batch are fetched, distinct and current. */
  ghost predicate FreshBatch(s: Sys, events: seq<Event>, from: nat) {
    && (forall i :: 0 <= i < |events| ==> events[i] in s.fetched)
    && (forall i, j :: 0 <= i < j < |events| ==> events[i].id != events[j].id)
    && forall i :: from <= i < |events| ==> Current(s, events[i])
  }

  lemma FetchedAreFresh(s: Sys, ids: seq<EventId>, limit: nat, now: int)
    requires CountsExactly(s) && Fetchable(s.table, ids, limit, now)
    ensures var t := Next(s, Fetch(ids, limit, now)); CountsExactly(t) && FreshBatch(t, Snapshots(s.table, ids), 0)
  {
    var t, events := Next(s, Fetch(ids, limit, now)), Snapshots(s.table, ids);
    forall i | 0 <= i < |events| ensures events[i] in t.fetched {
      assert ids[i] in ids;
    }
  }

  /** MAIN: as long as one worker consumes alone, a whole batch leaves every retry count equal to the number of
      committed failures, under every fault, lost acknowledgements included. */
  lemma {:induction false} BatchKeepsCounts(s: Sys, events: seq<Event>, faults: (nat, nat) -> Faults, k: nat)
    requires Inv(s) && CountsExactly(s) && FreshBatch(s, events, 0) && k <= |events|
    ensures var t := AfterEvents(s, events, faults, k); Inv(t) && CountsExactly(t) && FreshBatch(t, events, k)
  {
    hide Inv, CountsExactly;
    if k > 0 {
      BatchKeepsCounts(s, events, faults, k - 1);
      EventKeepsCounts(AfterEvents(s, events, faults, k - 1), events[k - 1], FaultsOf(faults, k - 1), 0);
    }
  }

  // ---------- When an event is settled ----------

  /** The attempt ends without effect in an error that is tried again: a swallowed claim error or a row update that
      fails with one, or a commit refused with one. A claim error always ends so unless the commit is lost or refused
      for good, for an aborted transaction cannot commit. */
  predicate Retried(claimable: bool, f: Faults) {
    && f.begins
    && (|| (f.claimError && (f.commit == Committed || f.commit == Refused(true)))
        || (!f.claimError && claimable && f.markError == Some(true) && f.rollbackOk)
        || (!f.claimError && (claimable ==> f.markError == None) && f.commit == Refused(true)))
  }

  /** The attempt reaches its commit without an error. */
  predicate Reaches(claimable: bool, f: Faults) {
    f.begins && !f.claimError && (claimable ==> f.markError == None)
  }

  /** Attempt k is the first that is not tried again, it is one of the first three, and it commits. */
  predicate CommitsAt(claimable: bool, faults: nat -> Faults, k: nat) {
    && k < 3
    && (forall j: nat :: j < k ==> Retried(claimable, faults(j)))
    && Reaches(claimable, faults(k)) && !faults(k).commit.Refused?
  }

  /** The event's handling is acknowledged: its attempt commits, and the worker learns that it did. */
  ghost predicate Acknowledged(claimable: bool, faults: nat -> Faults) {
    exists k: nat :: CommitsAt(claimable, faults, k) && faults(k).commit == Committed
  }

  /** What becomes of a claimable row when attempt f of event e commits. */
  predicate SettledAs(before: Row, after: Row, e: Event, f: Faults) {
    && after.eventType == before.eventType
    && (f.dispatchOk ==> after == before.(status := Succeeded))
    && (!f.dispatchOk ==>
          && after.status == Failed && after.retryCount == e.retryCount + 1
          && after.nextAttempt == f.now + 1000 * (e.retryCount + 1))
  }

  lemma AttemptOf(s: Sys, e: Event, f: Faults)
    ensures var claimable := Claimable(s.table, e.id);
      var t, verdict := AfterAttempt(s, e, f), AttemptVerdict(s, e, f);
      && (verdict == TryAgain <==> Retried(claimable, f))
      && (verdict == Done <==> Reaches(claimable, f) && f.commit == Committed)
      && (t != s <==> claimable && Reaches(claimable, f) && !f.commit.Refused?)
      && (claimable && Reaches(claimable, f) && !f.commit.Refused? ==>
            && t.table.Keys == s.table.Keys && (forall id :: id in s.table && id != e.id ==> t.table[id] == s.table[id])
            && SettledAs(s.table[e.id], t.table[e.id], e, f)
            && t.log == s.log + [Entry(e, f.dispatchOk, f.now)] && t.fetched == s.fetched)
  {
    var t := AfterAttempt(s, e, f);
    if t.log == s.log + [Entry(e, f.dispatchOk, f.now)] {
      assert |t.log| == |s.log| + 1;
    }
  }

  /** From attempt a on, everything before having been tried again: the event is settled as the committing attempt
      went, or nothing happens. */
  lemma {:induction false} EventFrom(s: Sys, e: Event, faults: nat -> Faults, a: nat)
    requires a < MAX_ATTEMPTS && forall j: nat :: j < a ==> Retried(Claimable(s.table, e.id), faults(j))
    ensures var claimable := Claimable(s.table, e.id);
      var (t, ok) := AfterEvent(s, e, faults, a);
      && (ok <==> Acknowledged(claimable, faults))
      && ((!claimable || forall k: nat :: !CommitsAt(claimable, faults, k)) ==> t == s)
      && (forall k: nat :: claimable && CommitsAt(claimable, faults, k) ==> t == AfterAttempt(s, e, faults(k)))
    decreases MAX_ATTEMPTS - a
  {
    var claimable := Claimable(s.table, e.id);
    AttemptOf(s, e, faults(a));
    hide AfterAttempt, AttemptVerdict, Claimable, SettledAs;
    forall k: nat | CommitsAt(claimable, faults, k) ensures k >= a && (!Retried(claimable, faults(a)) ==> k == a) {
      assert !Retried(claimable, faults(k));
    }
    if Retried(claimable, faults(a)) && a + 1 < MAX_ATTEMPTS {
      EventFrom(s, e, faults, a + 1);
    } else if Reaches(claimable, faults(a)) && !faults(a).commit.Refused? {
      assert CommitsAt(claimable, faults, a);
    }
  }

  /** MAIN: an event is tried up to three times, as long as each attempt ends without effect in a retryable error. Its
      row, if it can be claimed, is settled if and only if the first attempt that does not end so commits: succeeded
      or failed as that attempt's dispatch went; else nothing changes. Success is reported if and only if that
      commit, or for a row that cannot be claimed that of the empty transaction, is acknowledged. */
  lemma {:induction false} EventSettledIff(s: Sys, e: Event, faults: nat -> Faults)
    ensures var claimable := Claimable(s.table, e.id);
      var (t, ok) := AfterEvent(s, e, faults, 0);
      && (ok <==> Acknowledged(claimable, faults))
      && (t != s <==> claimable && exists k: nat :: CommitsAt(claimable, faults, k))
      && (forall k: nat :: claimable && CommitsAt(claimable, faults, k) ==>
            && t.table.Keys == s.table.Keys && (forall id :: id in s.table && id != e.id ==> t.table[id] == s.table[id])
            && SettledAs(s.table[e.id], t.table[e.id], e, faults(k))
            && t.log == s.log + [Entry(e, faults(k).dispatchOk, faults(k).now)])
  {
    hide AfterEvent, Retried, SettledAs, Acknowledged;
    EventFrom(s, e, faults, 0);
    forall k: nat { AttemptOf(s, e, faults(k)); }
  }

  /** MAIN: when an owned event can be fetched again after its handling. If an attempt committed: from the backoff on, a
      second for every failure counted, and only if the dispatch failed; if none did, whenever it could before. */
  lemma {:induction false} FetchedAgainIff(s: Sys, e: Event, faults: nat -> Faults, now: int)
    requires Claimable(s.table, e.id) && s.table[e.id].eventType in OWNED
    ensures var t := AfterEvent(s, e, faults, 0).0;
      && (forall k: nat :: CommitsAt(true, faults, k) ==>
            (Fetchable(t.table, [e.id], 1, now) <==>
               !faults(k).dispatchOk && faults(k).now + 1000 * (e.retryCount + 1) <= now))
      && ((forall k: nat :: !CommitsAt(true, faults, k)) ==>
            (Fetchable(t.table, [e.id], 1, now) <==> s.table[e.id].nextAttempt <= now))
  {
    hide AfterEvent, CommitsAt, Acknowledged;
    EventSettledIff(s, e, faults);
    FetchableOne(s.table, e.id, now);
    FetchableOne(AfterEvent(s, e, faults, 0).0.table, e.id, now);
    hide Fetchable;
  }

  lemma FetchableOne(table: map<EventId, Row>, id: EventId, now: int)
    ensures Fetchable(table, [id], 1, now) <==>
      Claimable(table, id) && table[id].nextAttempt <= now && table[id].eventType in OWNED
  {
    assert [id][0] == id;
  }

  /** What a batch has made of the row of one of its events, before and after the event's turn. */
  ghost predicate RowSettled(s: Sys, t: Sys, e: Event, faults: nat -> Faults, handled: bool) {
    e.id in s.table ==>
      && e.id in t.table
      && var commits := handled && Claimable(s.table, e.id);
      && (forall k: nat :: commits && CommitsAt(true, faults, k) ==>
            SettledAs(s.table[e.id], t.table[e.id], e, faults(k)))
      && ((!commits || forall k: nat :: !CommitsAt(true, faults, k)) ==> t.table[e.id] == s.table[e.id])
  }

  predicate DistinctEvents(events: seq<Event>) {
    forall i, j :: 0 <= i < j < |events| ==> events[i].id != events[j].id
  }

  lemma {:induction false} EventSettlesRow(s: Sys, t: Sys, e: Event, faults: nat -> Faults)
    requires RowSettled(s, t, e, faults, false) && t.table.Keys == s.table.Keys
    ensures var u := AfterEvent(t, e, faults, 0).0;
      RowSettled(s, u, e, faults, true) && u.table.Keys == s.table.Keys
    ensures forall x: Event, g: nat -> Faults, handled :: x.id != e.id && RowSettled(s, t, x, g, handled) ==>
      RowSettled(s, AfterEvent(t, e, faults, 0).0, x, g, handled)
  {
    hide AfterEvent, SettledAs, CommitsAt, Acknowledged;
    EventSettledIff(t, e, faults);
  }

  /** MAIN: in a batch of distinct events every event fares as by itself: its row is settled by its own faults alone. */
  lemma {:induction false} BatchSettles(s: Sys, events: seq<Event>, faults: (nat, nat) -> Faults, k: nat)
    requires DistinctEvents(events) && k <= |events|
    ensures var t := AfterEvents(s, events, faults, k);
      && t.table.Keys == s.table.Keys
      && forall i :: 0 <= i < |events| ==> RowSettled(s, t, events[i], FaultsOf(faults, i), i < k)
  {
    hide RowSettled, AfterEvent;
    if k == 0 {
      forall i | 0 <= i < |events| ensures RowSettled(s, s, events[i], FaultsOf(faults, i), false) {
        NothingSettled(s, events[i], FaultsOf(faults, i));
      }
    } else {
      BatchSettles(s, events, faults, k - 1);
      EventSettlesRow(s, AfterEvents(s, events, faults, k - 1), events[k - 1], FaultsOf(faults, k - 1));
    }
  }

  lemma NothingSettled(s: Sys, e: Event, faults: nat -> Faults)
    ensures RowSettled(s, s, e, faults, false)
  {
  }

  /** The events among the first k of a batch whose handling is acknowledged. */
  ghost function AcknowledgedEvents(s: Sys, events: seq<Event>, faults: (nat, nat) -> Faults, k: nat): set<nat>
    requires k <= |events|
  {
    set i: nat | i < k && Acknowledged(Claimable(s.table, events[i].id), FaultsOf(faults, i))
  }

  /** Event k of a batch is reported as handled exactly if it is acknowledged, which its own row and faults decide. */
  lemma BatchAcknowledges(s: Sys, events: seq<Event>, faults: (nat, nat) -> Faults, k: nat)
    requires DistinctEvents(events) && k < |events|
    ensures var ok := AfterEvent(AfterEvents(s, events, faults, k), events[k], FaultsOf(faults, k), 0).1;
      |AcknowledgedEvents(s, events, faults, k + 1)| ==
        |AcknowledgedEvents(s, events, faults, k)| + if ok then 1 else 0
  {
    hide AfterEvent, Acknowledged, CommitsAt, SettledAs;
    var t := AfterEvents(s, events, faults, k);
    BatchSettles(s, events, faults, k);
    assert RowSettled(s, t, events[k], FaultsOf(faults, k), false);
    EventSettledIff(t, events[k], FaultsOf(faults, k));
    var before, after := AcknowledgedEvents(s, events, faults, k), AcknowledgedEvents(s, events, faults, k + 1);
    if Acknowledged(Claimable(s.table, events[k].id), FaultsOf(faults, k)) {
      assert after == before + {k};
    } else {
      assert after == before;
    }
  }

  // ---------- Whole runs of one worker ----------

  /** Where a worker that consumes alone is in its loop: between polls, or at an attempt of one event of the
      batch it fetched. */
  datatype Worker = Idle | Busy(events: seq<Event>, next: nat, attempt: nat)

  /** The steps of that worker, and of everybody else on the table. */
  datatype SoloStep =
    | Poll(ids: seq<EventId>, limit: nat, now: int)
    | Try(faults: Faults)
      /** The worker stops or its process crashes, at any point of a batch, and starts again between polls. */
    | Restart
    | Others(step: Step)

  ghost predicate SoloEnabled(s: Sys, w: Worker, step: SoloStep) {
    match step
    case Poll(ids, limit, now) => w.Idle? && Fetchable(s.table, ids, limit, now)
    case Try(_) => w.Busy? && w.next < |w.events| && w.attempt < MAX_ATTEMPTS
    case Restart => true
    case Others(other) => !other.Fetch? && !other.Attempt? && Enabled(s, other)
  }

  function AfterTry(w: Worker, verdict: Verdict): Worker
    requires w.Busy?
  {
    if verdict == TryAgain && w.attempt + 1 < MAX_ATTEMPTS then w.(attempt := w.attempt + 1)
    else if w.next + 1 < |w.events| then Busy(w.events, w.next + 1, 0)
    else Idle
  }

  ghost function SoloNext(s: Sys, w: Worker, step: SoloStep): (Sys, Worker)
    requires SoloEnabled(s, w, step)
  {
    match step
    case Poll(ids, limit, now) =>
      (Next(s, Fetch(ids, limit, now)), if ids == [] then Idle else Busy(Snapshots(s.table, ids), 0, 0))
    case Try(f) =>
      var e := w.events[w.next];
      (AfterAttempt(s, e, f), AfterTry(w, AttemptVerdict(s, e, f)))
    case Restart => (s, Idle)
    case Others(other) => (Next(s, other), w)
  }

  ghost predicate SoloRuns(s: Sys, w: Worker, steps: seq<SoloStep>, t: Sys)
    decreases steps
  {
    if steps == [] then
      s == t
    else
      && SoloEnabled(s, w, steps[0])
      && SoloRuns(SoloNext(s, w, steps[0]).0, SoloNext(s, w, steps[0]).1, steps[1..], t)
  }

  ghost predicate SoloInv(s: Sys, w: Worker) {
    Inv(s) && CountsExactly(s) && (w.Busy? ==> FreshBatch(s, w.events, w.next))
  }

  lemma OthersKeepSolo(s: Sys, w: Worker, step: Step)
    requires SoloInv(s, w) && !step.Fetch? && !step.Attempt? && Enabled(s, step)
    ensures CountsExactly(Next(s, step)) && (w.Busy? ==> FreshBatch(Next(s, step), w.events, w.next))
  {
    match step
    case Insert(id, _, _) => Unmentioned(s.log, id);
    case OtherConsumer(_, _) =>
    case ResetStuck(stale, now) => ResetSparesReflecting(s, stale, now);
  }

  lemma TryKeepsSolo(s: Sys, w: Worker, f: Faults)
    requires SoloInv(s, w) && SoloEnabled(s, w, Try(f))
    ensures var (t, w') := SoloNext(s, w, Try(f)); SoloInv(t, w')
  {
    hide Inv, CountsExactly;
    var e := w.events[w.next];
    AttemptKeepsInv(s, e, f);
    CountExactIff(s, e, f);
    AttemptSparesOthers(s, e, f);
    if AttemptVerdict(s, e, f) == TryAgain {
      assert AfterAttempt(s, e, f) == s;
    }
  }

  lemma SoloKeepsInv(s: Sys, w: Worker, step: SoloStep)
    requires SoloInv(s, w) && SoloEnabled(s, w, step)
    ensures var (t, w') := SoloNext(s, w, step); SoloInv(t, w')
  {
    hide Inv, CountsExactly, FreshBatch, Enabled;
    match step
    case Poll(ids, limit, now) =>
      PollIsFetch(s, ids, limit, now);
      NextKeepsInv(s, Fetch(ids, limit, now));
      FetchedAreFresh(s, ids, limit, now);
    case Try(f) => TryKeepsSolo(s, w, f);
    case Restart =>
    case Others(other) =>
      NextKeepsInv(s, other);
      OthersKeepSolo(s, w, other);
  }

  lemma PollIsFetch(s: Sys, ids: seq<EventId>, limit: nat, now: int)
    requires Fetchable(s.table, ids, limit, now)
    ensures Enabled(s, Fetch(ids, limit, now))
  {
  }

  lemma {:induction false} SoloHolds(s: Sys, w: Worker, steps: seq<SoloStep>, t: Sys)
    requires SoloInv(s, w) && SoloRuns(s, w, steps, t)
    ensures CountsExactly(t)
    decreases steps
  {
    hide Inv, CountsExactly, FreshBatch, SoloEnabled, SoloNext;
    if steps != [] {
      SoloKeepsInv(s, w, steps[0]);
      var (s', w') := SoloNext(s, w, steps[0]);
      SoloHolds(s', w', steps[1..], t);
    }
  }

  /** MAIN: over every run in which one worker polls, attempts and at any point restarts, interleaved in any way with
      inserts, the other consumer's changes and its repair of stuck events, and under every fault, each owned row
      counts exactly its committed failures. */
  lemma {:induction false} SoloRunsCountExactly(steps: seq<SoloStep>, t: Sys)
    requires SoloRuns(EMPTY, Idle, steps, t)
    ensures forall id :: id in t.table && t.table[id].eventType in OWNED ==>
      t.table[id].retryCount == Failures(t.log, id)
  {
    SoloHolds(EMPTY, Idle, steps, t);
  }

  // ---------- Two workers ----------

  /** If two workers that fetched the same row both fail, both failures commit and the row counts one. */
  lemma TwoWorkersUndercount(s: Sys, e: Event, f: Faults, g: Faults)
    requires Inv(s) && CountsExactly(s) && e in s.fetched && Current(s, e) && Claimable(s.table, e.id)
    requires Ready(s, e, f) && f.commit.Committed? && !f.dispatchOk
    requires g.begins && !g.claimError && g.markError.None? && g.commit.Committed? && !g.dispatchOk
    ensures var t := AfterAttempt(AfterAttempt(s, e, f), e, g);
      Failures(t.log, e.id) == Failures(s.log, e.id) + 2 && t.table[e.id].retryCount == s.table[e.id].retryCount + 1
  {
    Appended(s.log, Entry(e, false, f.now), e.id);
    Appended(s.log + [Entry(e, false, f.now)], Entry(e, false, g.now), e.id);
  }

  lemma {:induction false} RunsCons(s: Sys, step: Step, rest: seq<Step>, t: Sys)
    requires Enabled(s, step) && Runs(Next(s, step), rest, t)
    ensures Runs(s, [step] + rest, t)
  {
    assert ([step] + rest)[1..] == rest;
  }

  /** Two workers fetch the one pending event, for the row locks end with the short fetch transaction. */
  function FetchedTwice(id: EventId): Sys {
    Sys(map[id := Row("chat.message.sent", Pending, 0, 0)], {Event(id, "chat.message.sent", 0)}, [])
  }

  lemma {:induction false} TwoFetchesRun(id: EventId, rest: seq<Step>, t: Sys)
    requires Runs(FetchedTwice(id), rest, t)
    ensures Runs(EMPTY, [Insert(id, "chat.message.sent", 0)] + ([Fetch([id], 1, 0)] + ([Fetch([id], 1, 0)] + rest)), t)
  {
    hide Runs;
    var insert, fetch := Insert(id, "chat.message.sent", 0), Fetch([id], 1, 0);
    var s1 := Next(EMPTY, insert);
    assert s1.table == map[id := Row("chat.message.sent", Pending, 0, 0)];
    assert (set x | x in [id] && x in s1.table :: Snapshot(s1.table, x)) == {Event(id, "chat.message.sent", 0)} by {
      assert id in [id];
    }
    assert Next(s1, fetch) == FetchedTwice(id);
    assert Next(FetchedTwice(id), fetch) == FetchedTwice(id);
    RunsCons(FetchedTwice(id), fetch, rest, t);
    RunsCons(s1, fetch, [fetch] + rest, t);
    RunsCons(EMPTY, insert, [fetch] + ([fetch] + rest), t);
  }

  /** MAIN: from the empty table five steps are enough for a row that counts one of its two committed failures. */
  lemma UndercountReachable(id: EventId, f: Faults)
    requires f.begins && !f.claimError && f.markError.None? && f.commit.Committed? && !f.dispatchOk
    ensures exists steps, t ::
      (|steps| == 5 && Runs(EMPTY, steps, t) &&
       id in t.table && t.table[id].retryCount == 1 && Failures(t.log, id) == 2)
  {
    var s, e := FetchedTwice(id), Event(id, "chat.message.sent", 0);
    var s' := AfterAttempt(s, e, f);
    var t := AfterAttempt(s', e, f);
    TwoWorkersUndercount(s, e, f, f);
    RunsCons(s', Attempt(e, f), [], t);
    RunsCons(s, Attempt(e, f), [Attempt(e, f)] + [], t);
    hide Runs;
    TwoFetchesRun(id, [Attempt(e, f)] + ([Attempt(e, f)] + []), t);
  }
}
