/** The store as Redis keeps it, updated in place: each method is one atomic script. */
module RedisRepository {
  import opened Common
  import opened LeaseProtocol

  /** Taking the first due entry of what is left brings the rows collected so far one further. */
  lemma FirstDueStep(d: map<UserId, int>, rest: map<UserId, int>, rows: seq<Claim>, now: int, limit: nat)
    requires |rows| < limit && Due(rest, now) != {}
    requires rows + FirstDue(rest, now, limit - |rows|) == FirstDue(d, now, limit)
    ensures var u := Earliest(rest, Due(rest, now));
      rows + [Claim(u, rest[u])] + FirstDue(rest - {u}, now, limit - |rows| - 1) == FirstDue(d, now, limit)
  {
  }

  class RedisStore {
    var leases: map<UserId, Leases>
    var deadlines: map<UserId, int>
    var states: map<UserId, StateHash>

    function Model(): Store
      reads this
    {
      Store(leases, deadlines, states)
    }

    constructor ()
      ensures Model() == EMPTY_STORE
    {
      leases, deadlines, states := map[], map[], map[];
    }

    /** load_state */
    method Load(u: UserId) returns (row: Result<Row>)
      ensures row == LoadState(Model(), u)
    {
      var online, version := 0, 0;
      if u in states {
        var hash := states[u];
        if hash.online.Missing? || hash.version.Missing? {
          return Err(MALFORMED);
        }
        var onlineNumber, versionNumber := LuaNumber(hash.online), LuaNumber(hash.version);
        if onlineNumber.None? || (onlineNumber.value != 0 && onlineNumber.value != 1) || versionNumber.None? {
          return Err(MALFORMED);
        }
        online, version := onlineNumber.value, versionNumber.value;
      }
      row := Ok(Row(online == 1, version));
    }

    /** max_deadline: ZREVRANGE 0 0 WITHSCORES on the lease set */
    method MaxDeadline(u: UserId) returns (top: Option<int>)
      ensures LeasesOf(Model(), u) == map[] ==> top == None
      ensures LeasesOf(Model(), u) != map[] ==> top == Some(MaxExpiry(LeasesOf(Model(), u)))
    {
      var m := LeasesOf(Model(), u);
      var rest := m.Keys;
      top := None;
      while rest != {}
        invariant rest <= m.Keys
        invariant top.None? <==> rest == m.Keys
        invariant top.Some? ==> exists c :: c in m && m[c] == top.value
        invariant top.Some? ==> forall c :: c in m && c !in rest ==> m[c] <= top.value
      {
        var c :| c in rest;
        rest := rest - {c};
        if top.None? || top.value < m[c] {
          top := Some(m[c]);
        }
      }
      assert m != map[] ==> m.Keys != {};
    }

    method StoreState(u: UserId, online: bool, version: int)
      modifies this`states
      ensures Model() == SaveState(old(Model()), u, Row(online, version))
    {
      states := states[u := StateHash(Number(if online then 1 else 0), Number(version))];
    }

    method SetLeaseSet(u: UserId, m: Leases)
      modifies this`leases
      ensures Model() == SetLeases(old(Model()), u, m)
    {
      leases := if m == map[] then leases - {u} else leases[u := m];
    }

    /** What both lease scripts do once the lease set of u is up to date. */
    method Reconcile(u: UserId, lastSeenIfOffline: int) returns (reply: Result<LeaseReply>)
      modifies this
      ensures (Model(), reply) == Settle(old(Model()), u, lastSeenIfOffline)
    {
      var activeCount := |LeasesOf(Model(), u)|;
      var loaded := Load(u);
      if loaded.Err? {
        return Err(loaded.message);
      }
      var online, version := loaded.value.online, loaded.value.version;
      var transitioned := false;
      var lastSeen, nextDeadline := None, None;
      if activeCount > 0 {
        nextDeadline := MaxDeadline(u);
        if !online {
          online, version, transitioned := true, version + 1, true;
        }
        StoreState(u, online, version);
        if nextDeadline.Some? {
          deadlines := deadlines[u := nextDeadline.value];
        }
      } else {
        deadlines := deadlines - {u};
        if online {
          online, version, transitioned := false, version + 1, true;
          lastSeen := Some(lastSeenIfOffline);
        }
        StoreState(u, online, version);
      }
      reply := Ok(LeaseReply(activeCount, online, transitioned, version, nextDeadline, lastSeen));
    }

    method EvalLeaseMutation(u: UserId, action: string, conn: ConnId, expiry: int, now: int)
      returns (reply: Result<LeaseReply>)
      modifies this
      ensures (Model(), reply) == MutateLease(old(Model()), u, action, conn, expiry, now)
    {
      var m := Prune(LeasesOf(Model(), u), now);
      if action == "resume" {
        m := m[conn := expiry];
      } else if action == "leave" {
        m := m - {conn};
      } else {
        SetLeaseSet(u, m);
        return Err(INVALID_ACTION);
      }
      SetLeaseSet(u, m);
      reply := Reconcile(u, now);
    }

    method EvalSweepUser(u: UserId, now: int, dueAt: int) returns (reply: Result<LeaseReply>)
      modifies this
      ensures (Model(), reply) == SweepUser(old(Model()), u, now, dueAt)
    {
      SetLeaseSet(u, Prune(LeasesOf(Model(), u), now));
      reply := Reconcile(u, dueAt);
    }

    method EvalBumpVersion(u: UserId) returns (reply: Result<Row>)
      modifies this
      ensures (Model(), reply) == BumpVersion(old(Model()), u)
    {
      var loaded := Load(u);
      if loaded.Err? {
        return Err(loaded.message);
      }
      StoreState(u, loaded.value.online, loaded.value.version + 1);
      reply := Ok(Row(loaded.value.online, loaded.value.version + 1));
    }

    /** The first of some entries of the deadline index d. */
    static method FirstByScore(d: map<UserId, int>, s: set<UserId>) returns (u: UserId)
      requires s != {} && s <= d.Keys
      ensures u == Earliest(d, s)
    {
      u :| u in s;
      var rest := s - {u};
      while rest != {}
        invariant rest <= s && u in s && u !in rest
        invariant forall v :: v in s - rest && v != u ==> Before(Claim(u, d[u]), Claim(v, d[v]))
      {
        var v :| v in rest;
        rest := rest - {v};
        if Before(Claim(v, d[v]), Claim(u, d[u])) {
          u := v;
        }
      }
      assert u == Earliest(d, s) || Before(Claim(u, d[u]), Claim(Earliest(d, s), d[Earliest(d, s)]));
    }

    /** ZRANGEBYSCORE -inf now WITHSCORES LIMIT 0 limit on the deadline index */
    method RangeByScore(now: int, limit: nat) returns (rows: seq<Claim>)
      ensures rows == FirstDue(deadlines, now, limit)
    {
      var rest := deadlines;
      rows := [];
      while |rows| < limit && Due(rest, now) != {}
        invariant |rows| <= limit
        invariant rows + FirstDue(rest, now, limit - |rows|) == FirstDue(deadlines, now, limit)
        decreases limit - |rows|
      {
        var u := FirstByScore(rest, Due(rest, now));
        FirstDueStep(deadlines, rest, rows, now, limit);
        rows := rows + [Claim(u, rest[u])];
        rest := rest - {u};
      }
    }

    method EvalClaimDueUsers(now: int, limit: int) returns (rows: seq<Claim>)
      modifies this`deadlines
      ensures (Model(), rows) == ClaimDueUsers(old(Model()), now, limit)
    {
      if limit <= 0 {
        return [];
      }
      rows := RangeByScore(now, limit);
      var i := 0;
      while i < |rows|
        invariant 0 <= i <= |rows|
        invariant deadlines == old(deadlines) - Users(rows[..i])
        invariant leases == old(leases) && states == old(states)
      {
        deadlines := deadlines - {rows[i].user};
        assert Users(rows[..i + 1]) == Users(rows[..i]) + {rows[i].user};
        i := i + 1;
      }
      assert rows[..i] == rows;
    }

    method ResumeLease(u: UserId, conn: ConnId, now: int) returns (reply: Result<LeaseReply>)
      modifies this
      ensures (Model(), reply) == MutateLease(old(Model()), u, "resume", conn, now + GRACE_MS, now)
    {
      reply := EvalLeaseMutation(u, "resume", conn, now + GRACE_MS, now);
    }

    method LeaveLease(u: UserId, conn: ConnId, now: int) returns (reply: Result<LeaseReply>)
      modifies this
      ensures (Model(), reply) == MutateLease(old(Model()), u, "leave", conn, ZERO_TIME_MS, now)
    {
      reply := EvalLeaseMutation(u, "leave", conn, ZERO_TIME_MS, now);
    }
  }
}
