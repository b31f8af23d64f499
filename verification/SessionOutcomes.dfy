/** What every session row and every user looks like after each session method, and which outcome it gives,
    row by row and without reference to how the method goes about it. The totals follow from Sessions.Inv. */
module SessionOutcomes {
  import opened Sessions
  import opened Sums
  import opened Wrappers

  // ---------- rows ----------

  /** The row after its session was closed at this time. */
  ghost predicate ClosedAt(before: Session, after: Session, at: int) {
    && after.endedAt == Some(at) && after.lastSeenAt == at && !after.isOnline
    && after.user == before.user && after.key == before.key && after.startedAt == before.startedAt
    && after.durationSeconds == WholeSecondsSince(before.startedAt, at)
  }

  /** The whole seconds between two times in milliseconds, 0 if the clock went back. */
  function WholeSecondsSince(from: int, to: int): int {
    if to < from then 0 else (to - from) / 1000
  }

  /** The row after a sweep: closed at the time it was last seen if the sweep found it stale. */
  ghost predicate AfterSweep(before: Session, after: Session, stale: bool) {
    if stale then ClosedAt(before, after, before.lastSeenAt) else after == before
  }

  /** Every row of t but the one named is as the sweep left it. */
  ghost predicate OthersSwept(t: Tables, r: Tables, stale: seq<SessionId>, but: Option<SessionId>) {
    forall id | id in t.sessions && Some(id) != but ::
      id in r.sessions && AfterSweep(t.sessions[id], r.sessions[id], id in stale)
  }

  /** Refreshed: seen now, otherwise as it was. */
  ghost predicate Refreshed(before: Session, after: Session, now: int) {
    IsOpen(before) && after == before.(lastSeenAt := now)
  }

  /** A session that has just started. */
  ghost predicate JustStarted(s: Session, w: Wallet, key: Option<string>, now: int) {
    && s.user == w && s.key == key && s.startedAt == now && s.lastSeenAt == now
    && s.endedAt.None? && s.durationSeconds == 0 && s.isOnline
  }

  /** Nobody but w changes role or block, and nobody but w joins. */
  ghost predicate FlagsKept(t: Tables, r: Tables, w: Wallet) {
    && (forall u | u in r.users :: u in t.users || u == w)
    && (forall u | u in t.users :: u in r.users)
    && (forall u | u in t.users && u != w ::
          r.users[u].isAdmin == t.users[u].isAdmin && r.users[u].isBlocked == t.users[u].isBlocked)
  }

  ghost predicate OwnOpen(t: Tables, w: Wallet, id: SessionId) {
    id in t.sessions && t.sessions[id].user == w && t.sessions[id].endedAt.None?
  }

  predicate Blocked(t: Tables, w: Wallet, isAdmin: bool) {
    w in t.users && t.users[w].isBlocked && !isAdmin
  }

  // ---------- closing ----------

  lemma CloseIsClosed(s: Session, at: int)
    requires GoodSession(s) && s.endedAt.None?
    ensures ClosedAt(s, Close(s, at), at)
  {
  }

  lemma CloseEachRow(t: Tables, ids: seq<SessionId>, at: Option<int>, id: SessionId)
    requires GoodSessions(t) && Known(t, ids) && id in t.sessions && (id in ids ==> t.sessions[id].endedAt.None?)
    ensures
      var r := CloseEach(t, ids, at);
      if id in ids then ClosedAt(t.sessions[id], r.sessions[id], ClosingTime(t.sessions[id], at))
      else r.sessions[id] == t.sessions[id]
  {
    CloseEachAt(t, ids, at, id);
    if id in ids {
      CloseIsClosed(t.sessions[id], ClosingTime(t.sessions[id], at));
    }
  }

  lemma SweptRows(t: Tables, stale: seq<SessionId>, cutoff: int, users: map<Wallet, User>)
    requires Inv(t) && Inv(t.(users := users)) && StaleBatch(t.sessions, cutoff, stale)
    ensures OthersSwept(t, CloseEach(t.(users := users), stale, None), stale, None)
  {
    var u := t.(users := users);
    forall id | id in t.sessions ensures AfterSweep(t.sessions[id], CloseEach(u, stale, None).sessions[id], id in stale) {
      SweptRow(u, stale, id, CloseEach(u, stale, None));
    }
  }

  lemma SweptRow(t: Tables, stale: seq<SessionId>, id: SessionId, swept: Tables)
    requires GoodSessions(t) && Known(t, stale) && id in t.sessions && (id in stale ==> t.sessions[id].endedAt.None?)
    requires swept == CloseEach(t, stale, None)
    ensures AfterSweep(t.sessions[id], swept.sessions[id], id in stale)
  {
    CloseEachRow(t, stale, None, id);
  }

  lemma CloseEachFlags(t: Tables, ids: seq<SessionId>, at: Option<int>, w: Wallet)
    requires Linked(t) && forall id | id in ids :: id in t.sessions
    ensures FlagsKept(t, CloseEach(t, ids, at), w)
    ensures w in t.users ==>
      CloseEach(t, ids, at).users[w].isAdmin == t.users[w].isAdmin && CloseEach(t, ids, at).users[w].isBlocked == t.users[w].isBlocked
  {
    forall u | u in t.users
      ensures CloseEach(t, ids, at).users[u].isAdmin == t.users[u].isAdmin
      ensures CloseEach(t, ids, at).users[u].isBlocked == t.users[u].isBlocked
    {
      CloseEachKeepsFlags(t, ids, at, u);
    }
  }

  /** Closing sessions of others leaves a user as it was. */
  lemma {:induction false} CloseEachSpares(t: Tables, ids: seq<SessionId>, at: Option<int>, u: Wallet)
    requires Known(t, ids) && u in t.users && forall id | id in ids :: t.sessions[id].user != u
    ensures CloseEach(t, ids, at).users[u] == t.users[u]
  {
    if |ids| > 0 {
      CloseEachSpares(t, ids[..|ids| - 1], at, u);
      CloseEachAt(t, ids[..|ids| - 1], at, ids[|ids| - 1]);
    }
  }

  // ---------- start ----------

  lemma SyncedInv(t: Tables, w: Wallet, isAdmin: bool)
    requires Inv(t)
    ensures Inv(Synced(t, w, isAdmin)) && Synced(t, w, isAdmin).sessions == t.sessions
  {
    SameTotalsKeepsInv(t, Synced(t, w, isAdmin));
  }

  /** A refused start changes no session, and of the users only the role of the wallet. */
  lemma StartRefused(t: Tables, a: StartArgs)
    requires Inv(t) && StartLegit(t, a) && Blocked(t, a.wallet, a.isAdmin)
    ensures var (r, outcome) := Start(t, a);
      outcome == Forbidden && r == t.(users := t.users[a.wallet := t.users[a.wallet].(isAdmin := false)])
  {
  }

  /** The session a start answers with: an open one of the wallet with the key, refreshed, or a new one. */
  ghost predicate StartedWith(t: Tables, r: Tables, id: SessionId, a: StartArgs) {
    id in r.sessions &&
    if id in t.sessions then
      && OwnOpen(t, a.wallet, id) && id !in a.stale && a.key.Some? && t.sessions[id].key == a.key
      && Refreshed(t.sessions[id], r.sessions[id], a.now)
    else
      && id == a.newId && JustStarted(r.sessions[id], a.wallet, a.key, a.now)
      && (a.key.Some? ==> forall i | i in t.sessions :: t.sessions[i].key != a.key)
  }

  ghost predicate RowsAfterStart(t: Tables, r: Tables, id: SessionId, a: StartArgs) {
    && r.sessions.Keys == t.sessions.Keys + {id}
    && StartedWith(t, r, id, a) && OthersSwept(t, r, a.stale, Some(id))
  }

  /** The wallet is a user, with the role it was found to have, and not blocked. */
  ghost predicate LetIn(t: Tables, r: Tables, w: Wallet, isAdmin: bool) {
    && FlagsKept(t, r, w) && w in r.users && r.users[w].isAdmin == isAdmin && !r.users[w].isBlocked
  }

  /** A start that succeeds answers with the open session of the wallet that has the key, if the sweep left it
      open, and otherwise with a new one; every other row is as the sweep left it, and the user is not blocked. */
  lemma StartEffect(t: Tables, a: StartArgs)
    requires Inv(t) && StartLegit(t, a) && Start(t, a).1.Started?
    ensures
      var (r, outcome) := Start(t, a);
      RowsAfterStart(t, r, outcome.id, a) && LetIn(t, r, a.wallet, a.isAdmin)
  {
    StartUnblocked(t, a);
    SyncedInv(t, a.wallet, a.isAdmin);
    SweptKeepsInv(t, a);
    SweptRows(t, a.stale, a.cutoff, Synced(t, a.wallet, a.isAdmin).users);
    var swept := Swept(t, a);
    var upserted := UpsertUser(swept, a.wallet, a.isAdmin);
    StartFlags(t, swept, a);
    OpenedRow(t, swept, upserted, a);
    LetInByUsers(t, upserted, Start(t, a).0, a.wallet, a.isAdmin);
  }

  /** A start that finds its key taken has swept and let the user in, and changed nothing else. */
  lemma StartViolates(t: Tables, a: StartArgs)
    requires Inv(t) && StartLegit(t, a) && Start(t, a).1 == UniqueViolation
    ensures var r := Start(t, a).0;
      && r.sessions.Keys == t.sessions.Keys && OthersSwept(t, r, a.stale, None)
      && LetIn(t, r, a.wallet, a.isAdmin)
  {
    SyncedInv(t, a.wallet, a.isAdmin);
    SweptRows(t, a.stale, a.cutoff, Synced(t, a.wallet, a.isAdmin).users);
    StartFlags(t, Swept(t, a), a);
  }

  lemma LetInByUsers(t: Tables, u: Tables, r: Tables, w: Wallet, isAdmin: bool)
    requires LetIn(t, u, w, isAdmin) && r.users == u.users
    ensures LetIn(t, r, w, isAdmin)
  {
  }

  lemma StartFlags(t: Tables, swept: Tables, a: StartArgs)
    requires StartLegit(t, a) && !Blocked(t, a.wallet, a.isAdmin) && swept == Swept(t, a)
    ensures
      LetIn(t, UpsertUser(swept, a.wallet, a.isAdmin), a.wallet, a.isAdmin)
  {
    CloseEachFlags(Synced(t, a.wallet, a.isAdmin), a.stale, None, a.wallet);
  }

  lemma OpenedRow(t: Tables, swept: Tables, u: Tables, a: StartArgs)
    requires OthersSwept(t, swept, a.stale, None) && swept.sessions.Keys == t.sessions.Keys && a.newId !in t.sessions
    requires u.sessions == swept.sessions && GoodSessions(u)
    requires OpenOrReuse(u, a.wallet, a.key, a.now, a.newId).1.Started?
    ensures
      var (r, outcome) := OpenOrReuse(u, a.wallet, a.key, a.now, a.newId);
      RowsAfterStart(t, r, outcome.id, a) && r.users == u.users
  {
    forall i | i in t.sessions ensures AfterSweep(t.sessions[i], swept.sessions[i], i in a.stale)
    {
    }
  }

  // ---------- heartbeat ----------

  /** A heartbeat of a blocked wallet is refused, and its session closed on the spot if it is still open. */
  lemma BeatRefused(t: Tables, a: BeatArgs)
    requires Inv(t) && BeatLegit(t, a)
    ensures
      var (r, outcome) := Heartbeat(t, a);
      var id := a.id;
      && (outcome == Forbidden <==> Blocked(t, a.first.wallet, a.first.isAdmin))
      && (outcome == Forbidden ==>
            && r.sessions.Keys == t.sessions.Keys
            && (if OwnOpen(t, a.first.wallet, id) && id !in a.first.stale then
                  OthersSwept(t, r, a.first.stale, Some(id)) && ClosedAt(t.sessions[id], r.sessions[id], a.first.now)
                else OthersSwept(t, r, a.first.stale, None)))
  {
    BeatSwept(t, a);
    var swept := CloseEach(t, a.first.stale, None);
    OpenAfterSweep(t, swept, a.first.stale, a.first.wallet, a.id);
    if OwnOpen(swept, a.first.wallet, a.id) {
      BeatOpenRefused(swept, a.first.wallet, a.id, a.first.isAdmin, a.first.now);
      ClosedRow(t, swept, Heartbeat(t, a).0, a.first.stale, a.id, a.first.now);
    } else {
      FallbackRefused(swept, a.again);
    }
  }

  lemma FallbackRefused(t: Tables, again: StartArgs)
    requires Inv(t) && StartLegit(t, again) && again.key.None?
    ensures var (r, outcome) := Start(t, again);
      && (outcome == Forbidden <==> Blocked(t, again.wallet, again.isAdmin))
      && (outcome == Forbidden ==> r.sessions == t.sessions) && (outcome != Forbidden ==> outcome.Started?)
  {
    StartOutcome(t, again);
    FreshStartId(t, again);
  }

  lemma BeatOpenRefused(t: Tables, w: Wallet, id: SessionId, isAdmin: bool, now: int)
    requires Inv(t) && OwnOpen(t, w, id)
    ensures var (r, outcome) := BeatOpen(t, w, id, isAdmin, now);
      && (outcome == Forbidden <==> Blocked(t, w, isAdmin))
      && (outcome == Forbidden ==> r.sessions == t.sessions[id := Close(t.sessions[id], now)])
  {
  }

  lemma ClosedRow(t: Tables, swept: Tables, r: Tables, stale: seq<SessionId>, id: SessionId, now: int)
    requires OthersSwept(t, swept, stale, None) && swept.sessions.Keys == t.sessions.Keys
    requires id in t.sessions && GoodSession(t.sessions[id]) && t.sessions[id].endedAt.None? && id !in stale
    ensures r.sessions == swept.sessions[id := Close(swept.sessions[id], now)] ==>
      OthersSwept(t, r, stale, Some(id)) && ClosedAt(t.sessions[id], r.sessions[id], now)
  {
    assert AfterSweep(t.sessions[id], swept.sessions[id], id in stale);
    CloseIsClosed(t.sessions[id], now);
  }

  /** An answered heartbeat refreshes the session it names, if that is the wallet's and the sweep left it open;
      otherwise it starts a new session without a key. */
  lemma BeatAnswered(t: Tables, a: BeatArgs)
    requires Inv(t) && BeatLegit(t, a) && Heartbeat(t, a).1.Beat?
    ensures
      var (r, outcome) := Heartbeat(t, a);
      && LetIn(t, r, a.first.wallet, a.first.isAdmin)
      && (!outcome.replaced <==> OwnOpen(t, a.first.wallet, a.id) && a.id !in a.first.stale)
      && if outcome.replaced then
           && outcome.id == a.again.newId && r.sessions.Keys == t.sessions.Keys + {outcome.id}
           && JustStarted(r.sessions[outcome.id], a.first.wallet, None, a.again.now)
           && OthersSwept(t, r, a.first.stale + a.again.stale, Some(outcome.id))
         else
           && outcome.id == a.id && r.sessions.Keys == t.sessions.Keys
           && Refreshed(t.sessions[a.id], r.sessions[a.id], a.first.now)
           && OthersSwept(t, r, a.first.stale, Some(a.id))
  {
    BeatSwept(t, a);
    var swept := CloseEach(t, a.first.stale, None);
    OpenAfterSweep(t, swept, a.first.stale, a.first.wallet, a.id);
    if OwnOpen(swept, a.first.wallet, a.id) {
      BeatOpenRefreshes(swept, a.first.wallet, a.id, a.first.isAdmin, a.first.now);
      RefreshedRow(t, swept, Heartbeat(t, a).0, a.first.stale, a.id, a.first.now);
      LetInAfterSweep(t, swept, Heartbeat(t, a).0, a.first.wallet, a.first.isAdmin);
    } else {
      StartOutcome(swept, a.again);
      FreshStartId(swept, a.again);
      StartEffect(swept, a.again);
      SweptTwice(t, swept, Heartbeat(t, a).0, a.first.stale, a.again.stale, a.again.newId);
      LetInAfterSweep(t, swept, Heartbeat(t, a).0, a.first.wallet, a.first.isAdmin);
    }
  }

  lemma BeatOpenRefreshes(t: Tables, w: Wallet, id: SessionId, isAdmin: bool, now: int)
    requires Inv(t) && OwnOpen(t, w, id)
    ensures var (r, outcome) := BeatOpen(t, w, id, isAdmin, now);
      outcome.Beat? ==>
        && outcome == Beat(id, false) && LetIn(t, r, w, isAdmin)
        && r.sessions == t.sessions[id := t.sessions[id].(lastSeenAt := now)]
  {
  }

  lemma RefreshedRow(t: Tables, swept: Tables, r: Tables, stale: seq<SessionId>, id: SessionId, now: int)
    requires OthersSwept(t, swept, stale, None) && swept.sessions.Keys == t.sessions.Keys
    requires id in t.sessions && IsOpen(t.sessions[id]) && id !in stale
    requires r.sessions == swept.sessions[id := swept.sessions[id].(lastSeenAt := now)]
    ensures Refreshed(t.sessions[id], r.sessions[id], now) && OthersSwept(t, r, stale, Some(id))
  {
    assert AfterSweep(t.sessions[id], swept.sessions[id], id in stale);
  }

  lemma OpenAfterSweep(t: Tables, swept: Tables, stale: seq<SessionId>, w: Wallet, id: SessionId)
    requires OthersSwept(t, swept, stale, None) && swept.sessions.Keys == t.sessions.Keys
    ensures OwnOpen(swept, w, id) <==> OwnOpen(t, w, id) && id !in stale
  {
    assert id in t.sessions ==> AfterSweep(t.sessions[id], swept.sessions[id], id in stale);
  }

  lemma LetInAfterSweep(t: Tables, swept: Tables, r: Tables, w: Wallet, isAdmin: bool)
    requires FlagsKept(t, swept, w) && swept.users.Keys == t.users.Keys && LetIn(swept, r, w, isAdmin)
    ensures LetIn(t, r, w, isAdmin)
  {
  }

  lemma SweptTwice(t: Tables, swept: Tables, r: Tables, first: seq<SessionId>, again: seq<SessionId>, but: SessionId)
    requires OthersSwept(t, swept, first, None) && OthersSwept(swept, r, again, Some(but))
    requires swept.sessions.Keys == t.sessions.Keys
    requires forall id | id in again :: id in swept.sessions && swept.sessions[id].endedAt.None?
    ensures OthersSwept(t, r, first + again, Some(but))
  {
    forall id | id in t.sessions && id != but
      ensures id in r.sessions && AfterSweep(t.sessions[id], r.sessions[id], id in first + again)
    {
      assert AfterSweep(t.sessions[id], swept.sessions[id], id in first);
      assert AfterSweep(swept.sessions[id], r.sessions[id], id in again);
    }
  }

  lemma BeatSwept(t: Tables, a: BeatArgs)
    requires Inv(t) && BeatLegit(t, a)
    ensures
      var swept := CloseEach(t, a.first.stale, None);
      && Inv(swept) && OthersSwept(t, swept, a.first.stale, None) && FlagsKept(t, swept, a.first.wallet)
      && Blocked(swept, a.first.wallet, a.first.isAdmin) == Blocked(t, a.first.wallet, a.first.isAdmin)
  {
    CloseEachKeepsInv(t, a.first.stale, None);
    assert t.(users := t.users) == t;
    SweptRows(t, a.first.stale, a.first.cutoff, t.users);
    CloseEachFlags(t, a.first.stale, None, a.first.wallet);
  }

  // ---------- end ----------

  /** Ending closes an open session of the wallet and reports the time it lasted and the wallet's new total; of an
      ended one it reports what is stored; for any other id it reports nothing. No other row or user changes. */
  lemma EndOutcome(t: Tables, w: Wallet, id: SessionId, now: int)
    requires Inv(t)
    ensures
      var (r, outcome) := End(t, w, id, now);
      if OwnOpen(t, w, id) then
        && r.sessions == t.sessions[id := r.sessions[id]] && ClosedAt(t.sessions[id], r.sessions[id], now)
        && (forall u | u in t.users && u != w :: u in r.users && r.users[u] == t.users[u])
        && FlagsKept(t, r, w)
        && outcome == Ended(true, WholeSecondsSince(t.sessions[id].startedAt, now), Sum(Durations(r.sessions, w)))
      else if id in t.sessions && t.sessions[id].user == w then
        r == t && outcome == Ended(false, t.sessions[id].durationSeconds, Sum(Durations(t.sessions, w)))
      else
        r == t && outcome == Ended(false, 0, 0)
  {
    if OwnOpen(t, w, id) {
      CloseSessionKeepsInv(t, id, now);
      CloseIsClosed(t.sessions[id], now);
    }
  }

  // ---------- block ----------

  /** Which requests to set or lift a block are carried out, and how the others are refused: without touching a
      session, and without touching any user but the role of the wallet. */
  lemma BlockRefused(t: Tables, a: BlockArgs)
    requires Inv(t) && BlockLegit(t, a)
    ensures
      var (r, outcome) := Block(t, a);
      && (outcome == NotFound <==> a.wallet !in t.users)
      && (outcome == BadRequest <==> a.wallet in t.users && a.block && a.isAdmin)
      && (outcome == Updated <==> a.wallet in t.users && !(a.block && a.isAdmin))
      && (outcome == NotFound ==> r == t)
      && (outcome == BadRequest ==>
            r == t.(users := t.users[a.wallet := t.users[a.wallet].(isAdmin := true, isBlocked := false)]))
  {
  }

  /** The user afterwards: blocked exactly if that was asked for, in its role; without a block no session and no
      total changes, and nobody else changes either way. */
  lemma BlockedUser(t: Tables, a: BlockArgs)
    requires Inv(t) && BlockLegit(t, a) && Block(t, a).1 == Updated
    ensures
      var r := Block(t, a).0;
      && r.users.Keys == t.users.Keys && a.wallet in t.users
      && r.users[a.wallet].isBlocked == a.block && r.users[a.wallet].isAdmin == a.isAdmin
      && (forall u | u in t.users && u != a.wallet :: r.users[u] == t.users[u])
      && (!a.block ==> r.sessions == t.sessions && r.users[a.wallet].totalSessionSeconds == t.users[a.wallet].totalSessionSeconds)
  {
    var flagged := Flagged(t, a);
    BlockParts(t, a);
    CloseEachKeepsFlags(flagged, a.open, Some(a.now), a.wallet);
    OthersSpared(flagged, a.open, a.now, a.wallet);
  }

  lemma OthersSpared(t: Tables, open: seq<SessionId>, now: int, w: Wallet)
    requires Linked(t) && OpenBatch(t.sessions, w, open)
    ensures forall u | u in t.users && u != w :: CloseEach(t, open, Some(now)).users[u] == t.users[u]
  {
    forall u | u in t.users && u != w ensures CloseEach(t, open, Some(now)).users[u] == t.users[u] {
      CloseEachSpares(t, open, Some(now), u);
    }
  }

  ghost function Flagged(t: Tables, a: BlockArgs): (r: Tables)
    requires a.wallet in t.users
    ensures r.sessions == t.sessions && r.users.Keys == t.users.Keys
  {
    t.(users := t.users[a.wallet := t.users[a.wallet].(isAdmin := a.isAdmin, isBlocked := a.block)])
  }

  lemma BlockParts(t: Tables, a: BlockArgs)
    requires BlockLegit(t, a) && Block(t, a).1 == Updated
    ensures a.wallet in t.users
    ensures Block(t, a).0 == if a.block then CloseEach(Flagged(t, a), a.open, Some(a.now)) else Flagged(t, a)
  {
    var w := a.wallet;
    var synced := Synced(t, w, a.isAdmin);
    assert synced.users[w := synced.users[w].(isBlocked := a.block)] == Flagged(t, a).users;
  }

  /** With a block every open session the query returned ends at that moment, and no other session changes. */
  lemma BlockedSessions(t: Tables, a: BlockArgs)
    requires Inv(t) && BlockLegit(t, a) && Block(t, a).1 == Updated && a.block
    ensures
      var r := Block(t, a).0;
      && r.sessions.Keys == t.sessions.Keys
      && OpenEnded(t, r, a.open, a.now)
  {
    BlockParts(t, a);
    SameTotalsKeepsInv(t, Flagged(t, a));
    OpenClosed(Flagged(t, a), a.wallet, a.open, a.now);
  }

  /** The listed sessions were closed at this time; every other row is as it was. */
  ghost predicate OpenEnded(t: Tables, r: Tables, open: seq<SessionId>, now: int) {
    forall id | id in t.sessions :: id in r.sessions && ClosedOrSame(t.sessions[id], r.sessions[id], id in open, now)
  }

  ghost predicate ClosedOrSame(before: Session, after: Session, closed: bool, at: int) {
    if closed then ClosedAt(before, after, at) else after == before
  }

  lemma OpenClosed(t: Tables, w: Wallet, open: seq<SessionId>, now: int)
    requires Inv(t) && OpenBatch(t.sessions, w, open)
    ensures OpenEnded(t, CloseEach(t, open, Some(now)), open, now)
  {
    forall id | id in t.sessions
      ensures ClosedOrSame(t.sessions[id], CloseEach(t, open, Some(now)).sessions[id], id in open, now)
    {
      CloseEachRow(t, open, Some(now), id);
    }
  }

  /** Lifting a block lets the wallet start again; setting one keeps it out unless it has become an admin. */
  lemma BlockDecidesStart(t: Tables, a: BlockArgs, start: StartArgs)
    requires Inv(t) && BlockLegit(t, a) && Block(t, a).1 == Updated
    requires StartLegit(Block(t, a).0, start) && start.wallet == a.wallet
    ensures Start(Block(t, a).0, start).1 == Forbidden <==> a.block && !start.isAdmin
  {
    BlockKeepsInv(t, a);
    BlockedUser(t, a);
    StartOutcome(Block(t, a).0, start);
  }
}
