/** The durable last-seen column: upserts commute, repeat harmlessly, and keep the maximum. */
module LastSeen {
  import opened Common
  import opened LeaseProtocol
  import opened VersionAccounting
  import opened PresenceService

  /** A row of user_presence; last_seen_at may be NULL. */
  datatype PresenceRow = PresenceRow(lastSeen: Option<int>, updatedAt: int)

  /** One delivery of a last-seen record, at database time now. */
  datatype Delivery = Delivery(occurredAt: int, now: int)

  /** The larger of two times, NULL (or no row) being the bottom. */
  function Join(a: Option<int>, t: int): Option<int> {
    match a
    case None => Some(t)
    case Some(s) => Some(Max(s, t))
  }

  class UserPresenceTable {
    var rows: map<UserId, PresenceRow>

    constructor ()
      ensures rows == map[]
    {
      rows := map[];
    }

    function LastSeenOf(u: UserId): Option<int>
      reads this
    {
      if u in rows then rows[u].lastSeen else None
    }

    /** UpsertLastSeen: the stored time becomes the join, and updated_at moves exactly when the stored
        time does. */
    method UpsertLastSeen(u: UserId, occurredAt: int, now: int)
      modifies this
      ensures rows.Keys == old(rows.Keys) + {u}
      ensures forall v :: v in rows && v != u ==> rows[v] == old(rows)[v]
      ensures LastSeenOf(u) == Join(old(LastSeenOf(u)), occurredAt)
      ensures rows[u].updatedAt ==
        if LastSeenOf(u) != old(LastSeenOf(u)) then now else old(rows)[u].updatedAt
      ensures rows == old(rows)[u := Upserted(old(rows), u, Delivery(occurredAt, now))]
    {
      if u !in rows {
        rows := rows[u := PresenceRow(Some(occurredAt), now)];
      } else {
        var row := rows[u];
        var lastSeen :=
          if row.lastSeen.None? then Some(occurredAt)
          else if occurredAt > row.lastSeen.value then Some(occurredAt)
          else row.lastSeen;
        var updatedAt :=
          if row.lastSeen.None? || occurredAt > row.lastSeen.value then now else row.updatedAt;
        rows := rows[u := PresenceRow(lastSeen, updatedAt)];
      }
    }
  }

  function Upserted(rows: map<UserId, PresenceRow>, u: UserId, d: Delivery): PresenceRow {
    if u !in rows then PresenceRow(Some(d.occurredAt), d.now) else
    var joined := Join(rows[u].lastSeen, d.occurredAt);
    PresenceRow(joined, if joined != rows[u].lastSeen then d.now else rows[u].updatedAt)
  }

  function Replayed(rows: map<UserId, PresenceRow>, u: UserId, deliveries: seq<Delivery>): map<UserId, PresenceRow> {
    if deliveries == [] then rows else
    var before := Replayed(rows, u, deliveries[..|deliveries| - 1]);
    before[u := Upserted(before, u, deliveries[|deliveries| - 1])]
  }

  function Stored(rows: map<UserId, PresenceRow>, u: UserId): Option<int> {
    if u in rows then rows[u].lastSeen else None
  }

  /** Some delivery is of time t. */
  ghost predicate Carries(deliveries: seq<Delivery>, t: int) {
    exists d :: d in deliveries && d.occurredAt == t
  }

  /** t is the maximum of an old value and some records. */
  ghost predicate IsMaximum(initial: Option<int>, deliveries: seq<Delivery>, t: Option<int>) {
    && (initial == None && deliveries == [] <==> t == None)
    && (t.Some? ==>
          && (initial == t || Carries(deliveries, t.value))
          && (initial.Some? ==> initial.value <= t.value)
          && (forall d :: d in deliveries ==> d.occurredAt <= t.value))
  }

  /** MAIN: after any deliveries, in any order and with any repetitions, the row holds the maximum of its
      old value and all records. */
  lemma {:induction false} ReplayKeepsMaximum(rows: map<UserId, PresenceRow>, u: UserId, deliveries: seq<Delivery>)
    ensures IsMaximum(Stored(rows, u), deliveries, Stored(Replayed(rows, u, deliveries), u))
  {
    if deliveries != [] {
      var n := |deliveries| - 1;
      ReplayKeepsMaximum(rows, u, deliveries[..n]);
      assert deliveries == deliveries[..n] + [deliveries[n]];
    }
  }

  /** MAIN: two replays that deliver the same records, however ordered and repeated, leave the same time. */
  lemma {:induction false} ReplayOrderIrrelevant(rows: map<UserId, PresenceRow>, u: UserId, a: seq<Delivery>,
                                                 b: seq<Delivery>)
    requires forall t :: Carries(a, t) <==> Carries(b, t)
    ensures Stored(Replayed(rows, u, a), u) == Stored(Replayed(rows, u, b), u)
  {
    ReplayKeepsMaximum(rows, u, a);
    ReplayKeepsMaximum(rows, u, b);
    MaximumUnique(Stored(rows, u), a, b, Stored(Replayed(rows, u, a), u), Stored(Replayed(rows, u, b), u));
  }

  lemma MaximumUnique(initial: Option<int>, a: seq<Delivery>, b: seq<Delivery>, s: Option<int>, t: Option<int>)
    requires IsMaximum(initial, a, s) && IsMaximum(initial, b, t)
    requires forall t :: Carries(a, t) <==> Carries(b, t)
    ensures s == t
  {
    if a != [] {
      assert a[0] in a && Carries(a, a[0].occurredAt) && Carries(b, a[0].occurredAt);
    }
    if b != [] {
      assert b[0] in b && Carries(b, b[0].occurredAt) && Carries(a, b[0].occurredAt);
    }
  }

  /** A repeated record changes neither column. */
  lemma {:induction false} ReplayIdempotent(rows: map<UserId, PresenceRow>, u: UserId, deliveries: seq<Delivery>,
                                            d: Delivery, now: int)
    requires d in deliveries
    ensures Replayed(rows, u, deliveries + [Delivery(d.occurredAt, now)]) == Replayed(rows, u, deliveries)
  {
    ReplayKeepsMaximum(rows, u, deliveries);
    assert (deliveries + [Delivery(d.occurredAt, now)])[..|deliveries|] == deliveries;
  }

  /** Rounding down to whole seconds commutes with the maximum. */
  lemma WholeSecondsOfMax(s: int, t: int)
    ensures WholeSeconds(Max(s, t)) == Max(WholeSeconds(s), WholeSeconds(t))
    ensures WholeSeconds(s) % 1000 == 0 && WholeSeconds(s) <= s < WholeSeconds(s) + 1000
  {
    assert s <= t ==> s / 1000 <= t / 1000;
    assert t <= s ==> t / 1000 <= s / 1000;
  }

  /** The times the outbox holds for u. */
  ghost predicate InOutbox(outbox: map<string, Record>, u: UserId, t: int) {
    exists key :: key in outbox && outbox[key].user == u && outbox[key].lastSeen == t
  }

  /** The outbox records of u are those of the inserted events of u, and are no later than the latest event. */
  lemma TimesInOutbox(show: UserId -> string, log: seq<Event>, outcomes: seq<Handling>, outbox: map<string, Record>,
                      u: UserId, t: int)
    requires |outcomes| == |log| && forall e :: e in log ==> e.version >= 0
    requires OutboxIs(show, log, outcomes, outbox)
    ensures InOutbox(outbox, u, t) <==> exists j :: 0 <= j < |log| && InsertedAt(log, outcomes, j, u, t)
  {
    hide IdempotencyKey, WholeSeconds;
    if InOutbox(outbox, u, t) {
      var key :| key in outbox && outbox[key].user == u && outbox[key].lastSeen == t;
      var j :| 0 <= j < |log| && Kept(log[j], outcomes[j]) && key == KeyOf(show, log[j]);
      assert InsertedAt(log, outcomes, j, u, t);
    }
    if j :| 0 <= j < |log| && InsertedAt(log, outcomes, j, u, t) {
      assert KeyOf(show, log[j]) in outbox;
    }
  }

  /** Event j recorded whole second t for u, and its insert took effect. */
  predicate InsertedAt(log: seq<Event>, outcomes: seq<Handling>, j: int, u: UserId, t: int)
    requires |outcomes| == |log| && 0 <= j < |log|
  {
    Recorded(log[j]) && log[j].user == u && outcomes[j].insert.TookEffect() && WholeSeconds(log[j].lastSeen.value) == t
  }

  /** MAIN: from a run to the database, whatever fails. Once every record the outbox holds for u has been delivered
      at least once, in any order, to a user without a row, the durable time is the latest last-seen time the
      run reported for u, to the whole second, if and only if some event of that very second was inserted; it is
      none if and only if none of u's events was. */
  lemma {:induction false} DurableTimeIsLatestIff(show: UserId -> string, steps: seq<Step>, outcomes: seq<Handling>,
                                                  u: UserId, i: nat, deliveries: seq<Delivery>)
    requires PrintsIds(show) && |outcomes| == |Run(INIT, steps).log|
    requires var log := Run(INIT, steps).log;
      && i < |log| && Recorded(log[i]) && log[i].user == u
      && (forall e :: e in log && Recorded(e) && e.user == u ==> e.lastSeen.value <= log[i].lastSeen.value)
    requires forall t :: Carries(deliveries, t) <==>
      InOutbox(HandleAll(show, Run(INIT, steps).log, outcomes).outbox, u, t)
    ensures var log := Run(INIT, steps).log;
      var latest, stored := WholeSeconds(log[i].lastSeen.value), Stored(Replayed(map[], u, deliveries), u);
      && (stored == Some(latest) <==> exists j :: 0 <= j < |log| && InsertedAt(log, outcomes, j, u, latest))
      && (stored == None <==> forall j, t :: 0 <= j < |log| ==> !InsertedAt(log, outcomes, j, u, t))
      && (stored.Some? ==> stored.value <= latest)
      && (stored.Some? ==> exists j :: 0 <= j < |log| && InsertedAt(log, outcomes, j, u, stored.value))
  {
    hide Run, HandleAll, Replayed, WholeSeconds, OutboxIs, InOutbox;
    var log := Run(INIT, steps).log;
    OutboxHoldsTheInserted(show, steps, outcomes);
    ReplayKeepsMaximum(map[], u, deliveries);
    forall t ensures InOutbox(HandleAll(show, log, outcomes).outbox, u, t) <==>
        exists j :: 0 <= j < |log| && InsertedAt(log, outcomes, j, u, t) {
      TimesInOutbox(show, log, outcomes, HandleAll(show, log, outcomes).outbox, u, t);
    }
    MaximumOfInserted(log, outcomes, u, i, deliveries, Stored(Replayed(map[], u, deliveries), u));
  }

  lemma MaximumOfInserted(log: seq<Event>, outcomes: seq<Handling>, u: UserId, i: nat, deliveries: seq<Delivery>,
                          stored: Option<int>)
    requires |outcomes| == |log| && i < |log| && Recorded(log[i]) && log[i].user == u
    requires forall e :: e in log && Recorded(e) && e.user == u ==> e.lastSeen.value <= log[i].lastSeen.value
    requires forall t :: Carries(deliveries, t) <==> exists j :: 0 <= j < |log| && InsertedAt(log, outcomes, j, u, t)
    requires IsMaximum(None, deliveries, stored)
    ensures var latest := WholeSeconds(log[i].lastSeen.value);
      && (stored == Some(latest) <==> exists j :: 0 <= j < |log| && InsertedAt(log, outcomes, j, u, latest))
      && (stored == None <==> forall j, t :: 0 <= j < |log| ==> !InsertedAt(log, outcomes, j, u, t))
      && (stored.Some? ==> stored.value <= latest)
      && (stored.Some? ==> exists j :: 0 <= j < |log| && InsertedAt(log, outcomes, j, u, stored.value))
  {
    hide WholeSeconds;
    var latest := WholeSeconds(log[i].lastSeen.value);
    forall j, t | 0 <= j < |log| && InsertedAt(log, outcomes, j, u, t)
      ensures t <= latest && Carries(deliveries, t) && stored.Some? && t <= stored.value
    {
      assert log[j] in log;
      WholeSecondsOfMax(log[j].lastSeen.value, log[i].lastSeen.value);
    }
    if deliveries != [] {
      assert Carries(deliveries, deliveries[0].occurredAt);
    }
  }
}
