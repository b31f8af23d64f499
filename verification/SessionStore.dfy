/** The session methods with their reads, loops and writes, on the two tables they update in place. Each method is
    proved to leave the tables that its step in Sessions computes, so that what Sessions and SessionOutcomes prove
    of steps and runs holds of the tables: the loops close one row after the other from the rows the query returned,
    and credit the user each time or once at the end, which comes to the same. The rows a query returns, the clock
    readings and the ids of new rows are parameters. */
module SessionStore {
  import opened Wrappers
  import opened Sessions

  class Store {
    var users: map<Wallet, User>
    var sessions: map<SessionId, Session>

    constructor ()
      ensures Now() == Tables(map[], map[]) && Inv(Now())
    {
      users, sessions := map[], map[];
    }

    function Now(): Tables
      reads this
    {
      Tables(users, sessions)
    }

    /** runFinalizeStaleSessions: the rows are read once, then closed one transaction at a time. */
    method FinalizeStaleSessions(cutoff: int, stale: seq<SessionId>)
      requires Linked(Now()) && StaleBatch(sessions, cutoff, stale)
      modifies this
      ensures Now() == CloseEach(old(Now()), stale, None)
    {
      CloseRows(stale);
    }

    method CloseRows(stale: seq<SessionId>)
      requires Known(Now(), stale)
      modifies this
      ensures Now() == CloseEach(old(Now()), stale, None)
    {
      var rows := sessions;
      ghost var start := Now();
      var i := 0;
      assert stale[..0] == [];
      while i < |stale|
        invariant 0 <= i <= |stale|
        invariant Now() == CloseEach(start, stale[..i], None)
      {
        var session := rows[stale[i]];
        CloseEachNext(start, stale, i, None);
        ghost var after := CloseEach(start, stale[..i + 1], None);
        assert after == CloseSession(Now(), stale[i], session.lastSeenAt);
        CloseStale(stale[i], session);
        assert Now() == after;
        i := i + 1;
      }
      assert stale[..|stale|] == stale;
    }

    /** One transaction of the sweep, on the row as the query returned it. */
    method CloseStale(id: SessionId, session: Session)
      requires id in sessions && sessions[id] == session && session.user in users
      modifies this
      ensures Now() == CloseSession(old(Now()), id, session.lastSeenAt)
    {
      var durationSeconds := Max(session.durationSeconds, WholeSeconds(session.startedAt, session.lastSeenAt));
      var durationDelta := Max(0, durationSeconds - session.durationSeconds);
      sessions := sessions[id := sessions[id].(isOnline := false, endedAt := Some(session.lastSeenAt),
                                               durationSeconds := durationSeconds)];
      if durationDelta > 0 {
        Credit(session.user, durationDelta);
      }
      assert users == CloseSession(old(Now()), id, session.lastSeenAt).users;
    }

    /** Adds to one user's total and leaves the others alone. */
    method Credit(w: Wallet, delta: int)
      requires w in users
      modifies `users
      ensures users == Credited(old(users), w, delta)
    {
      users := users[w := users[w].(totalSessionSeconds := users[w].totalSessionSeconds + delta)];
    }

    method SyncWalletRoleAndBlockState(w: Wallet, isAdmin: bool)
      requires w in users
      modifies `users
      ensures Now() == Synced(old(Now()), w, isAdmin)
    {
      var user := users[w];
      if user.isAdmin != isAdmin || (isAdmin && user.isBlocked) {
        users := users[w := user.(isAdmin := isAdmin, isBlocked := if isAdmin then false else user.isBlocked)];
      } else {
        assert users == users[w := user];
      }
    }

    method StartSession(a: StartArgs) returns (outcome: Outcome)
      requires Inv(Now()) && StartLegit(Now(), a)
      modifies this
      ensures (Now(), outcome) == Start(old(Now()), a)
    {
      if a.wallet in users {
        SyncWalletRoleAndBlockState(a.wallet, a.isAdmin);
        if BlockedForAccess(users[a.wallet]) {
          return Forbidden;
        }
      }
      ghost var synced := Now();
      SameTotalsKeepsInv(old(Now()), synced);
      FinalizeStaleSessions(a.cutoff, a.stale);
      CloseEachKeepsInv(synced, a.stale, None);
      users := users[a.wallet := if a.wallet in users then users[a.wallet].(isAdmin := a.isAdmin)
                                 else User(a.isAdmin, false, 0)];
      outcome := CreateSession(a.wallet, a.key, a.now, a.newId);
    }

    /** The last part of startSession: reuse the open session with this key, or insert a row. */
    method CreateSession(w: Wallet, key: Option<string>, now: int, newId: SessionId) returns (outcome: Outcome)
      requires KeysUnique(sessions)
      modifies `sessions
      ensures (Now(), outcome) == OpenOrReuse(old(Now()), w, key, now, newId)
    {
      if key.Some? {
        if id :| id in sessions && sessions[id].key == key {
          ghost var found := FindByKey(sessions, key.value);
          assert found == Some(id);
          if sessions[id].user == w && sessions[id].endedAt.None? {
            sessions := sessions[id := sessions[id].(lastSeenAt := now, isOnline := true)];
            return Started(id);
          }
          return UniqueViolation;
        }
      }
      sessions := sessions[newId := NewSession(w, key, now)];
      return Started(newId);
    }

    method HeartbeatSession(a: BeatArgs) returns (outcome: Outcome)
      requires Inv(Now()) && BeatLegit(Now(), a)
      modifies this
      ensures (Now(), outcome) == Heartbeat(old(Now()), a)
    {
      CloseEachKeepsInv(Now(), a.first.stale, None);
      FinalizeStaleSessions(a.first.cutoff, a.first.stale);
      var w, now := a.first.wallet, a.first.now;
      if a.id !in sessions || sessions[a.id].user != w || sessions[a.id].endedAt.Some? {
        outcome := StartSession(a.again);
        if outcome.Started? {
          outcome := Beat(outcome.id, true);
        }
        return;
      }
      outcome := BeatExisting(w, a.id, a.first.isAdmin, now);
    }

    method BeatExisting(w: Wallet, id: SessionId, isAdmin: bool, now: int) returns (outcome: Outcome)
      requires Linked(Now()) && id in sessions && sessions[id].user == w && sessions[id].endedAt.None?
      modifies this
      ensures (Now(), outcome) == BeatOpen(old(Now()), w, id, isAdmin, now)
    {
      var existing := sessions[id];
      SyncWalletRoleAndBlockState(w, isAdmin);
      if BlockedForAccess(users[w]) {
        var durationSeconds := Max(existing.durationSeconds, WholeSeconds(existing.startedAt, now));
        var durationDelta := Max(0, durationSeconds - existing.durationSeconds);
        ghost var synced := Now();
        sessions := sessions[id := sessions[id].(isOnline := false, lastSeenAt := now, endedAt := Some(now),
                                                 durationSeconds := durationSeconds)];
        if durationDelta > 0 {
          Credit(w, durationDelta);
        }
        assert users == CloseSession(synced, id, now).users;
        return Forbidden;
      }
      sessions := sessions[id := sessions[id].(isOnline := true, lastSeenAt := now)];
      return Beat(id, false);
    }

    method EndSession(w: Wallet, id: SessionId, now: int) returns (outcome: Outcome)
      requires Linked(Now())
      modifies this
      ensures (Now(), outcome) == End(old(Now()), w, id, now)
    {
      if id !in sessions || sessions[id].user != w {
        return Ended(false, 0, 0);
      }
      var session := sessions[id];
      if session.endedAt.Some? {
        return Ended(false, session.durationSeconds, users[w].totalSessionSeconds);
      }
      var durationSeconds := Max(session.durationSeconds, WholeSeconds(session.startedAt, now));
      var durationDelta := Max(0, durationSeconds - session.durationSeconds);
      sessions := sessions[id := sessions[id].(isOnline := false, lastSeenAt := now, endedAt := Some(now),
                                               durationSeconds := durationSeconds)];
      if durationDelta != 0 {
        Credit(w, durationDelta);
      }
      assert users == CloseSession(old(Now()), id, now).users;
      return Ended(true, durationSeconds, users[w].totalSessionSeconds);
    }

    /** updateWalletUserBlock: the open sessions are closed one by one, their user credited once at the end. */
    method UpdateWalletUserBlock(a: BlockArgs) returns (outcome: Outcome)
      requires BlockLegit(Now(), a)
      modifies this
      ensures (Now(), outcome) == Block(old(Now()), a)
      ensures outcome == NotFound <==> a.wallet !in old(users)
      ensures outcome == BadRequest <==> a.wallet in old(users) && a.block && a.isAdmin
      ensures outcome == Updated <==> a.wallet in old(users) && !(a.block && a.isAdmin)
      ensures outcome == Updated ==>
        a.wallet in users && users[a.wallet].isBlocked == a.block && users[a.wallet].isAdmin == a.isAdmin
      ensures !a.block || outcome != Updated ==> sessions == old(sessions)
    {
      if a.wallet !in users {
        return NotFound;
      }
      SyncWalletRoleAndBlockState(a.wallet, a.isAdmin);
      if a.block && users[a.wallet].isAdmin {
        return BadRequest;
      }
      users := users[a.wallet := users[a.wallet].(isBlocked := a.block)];
      if a.block {
        CloseEachKeepsFlags(Now(), a.open, Some(a.now), a.wallet);
        CloseOpenSessions(a.wallet, a.open, a.now);
      }
      return Updated;
    }

    method CloseOpenSessions(w: Wallet, open: seq<SessionId>, now: int)
      requires Known(Now(), open) && w in users && forall i | 0 <= i < |open| :: sessions[open[i]].user == w
      modifies this
      ensures Now() == CloseEach(old(Now()), open, Some(now))
    {
      var totalDelta := CloseAndCount(w, open, now);
      if totalDelta > 0 {
        Credit(w, totalDelta);
      }
    }

    /** The loop over the rows: every one closed, the growth of their durations added up. */
    method CloseAndCount(w: Wallet, open: seq<SessionId>, now: int) returns (totalDelta: int)
      requires Known(Now(), open) && w in users && forall i | 0 <= i < |open| :: sessions[open[i]].user == w
      modifies `sessions
      ensures totalDelta >= 0 && sessions == CloseEach(old(Now()), open, Some(now)).sessions
      ensures Owes(CloseEach(old(Now()), open, Some(now)), users, w, totalDelta)
    {
      var rows := sessions;
      ghost var start, closed := Now(), Now();
      totalDelta := 0;
      var i := 0;
      assert open[..0] == [];
      while i < |open|
        invariant 0 <= i <= |open| && totalDelta >= 0
        invariant closed == CloseEach(start, open[..i], Some(now)) && sessions == closed.sessions
        invariant Owes(closed, users, w, totalDelta)
      {
        var session := rows[open[i]];
        CloseEachNext(start, open, i, Some(now));
        var delta := CloseOpen(open[i], session, now);
        ghost var before := closed;
        totalDelta, closed := totalDelta + delta, CloseSession(closed, open[i], now);
        CloseCredits(before, closed, users, w, totalDelta, delta, open[i], now);
        i := i + 1;
      }
      assert open[..|open|] == open;
    }

    /** One update of the loop; the growth of the duration is returned, not yet credited. */
    method CloseOpen(id: SessionId, session: Session, now: int) returns (delta: int)
      requires id in sessions && sessions[id] == session
      modifies `sessions
      ensures delta == Seconds(session, now) - session.durationSeconds >= 0
      ensures sessions == old(sessions)[id := Close(session, now)]
    {
      var durationSeconds := Max(session.durationSeconds, WholeSeconds(session.startedAt, now));
      delta := Max(0, durationSeconds - session.durationSeconds);
      sessions := sessions[id := sessions[id].(isOnline := false, endedAt := Some(now), lastSeenAt := now,
                                               durationSeconds := durationSeconds)];
    }
  }

  ghost function Credited(users: map<Wallet, User>, w: Wallet, delta: int): map<Wallet, User>
    requires w in users
  {
    users[w := users[w].(totalSessionSeconds := users[w].totalSessionSeconds + delta)]
  }

  /** The closings so far have credited w with this much. */
  ghost predicate Owes(t: Tables, users: map<Wallet, User>, w: Wallet, pending: int) {
    w in users && t.users == Credited(users, w, pending)
  }

  /** Crediting once at the end comes to the same as crediting at every closing. */
  lemma CloseCredits(t: Tables, r: Tables, users: map<Wallet, User>, w: Wallet, owed: int, delta: int,
                     id: SessionId, now: int)
    requires Owes(t, users, w, owed - delta) && id in t.sessions && t.sessions[id].user == w
    requires delta == Seconds(t.sessions[id], now) - t.sessions[id].durationSeconds && r == CloseSession(t, id, now)
    ensures Owes(r, users, w, owed)
  {
  }
}
