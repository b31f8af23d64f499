/** Wallet sessions and the per-user total of session seconds: apps/api/src/users/users.service.ts and
    users-online-state.service.ts, each method as one step on the two tables. */
module Sessions {
  import opened FiniteSets
  import opened Sums
  import opened Wrappers

  type Wallet = string
  type SessionId = string

  /** A row of WalletUser; the wallet address is unique and stands for the id. */
  datatype User = User(isAdmin: bool, isBlocked: bool, totalSessionSeconds: int)

  datatype Session = Session(
    user: Wallet, key: Option<string>, startedAt: int, lastSeenAt: int, endedAt: Option<int>,
    durationSeconds: int, isOnline: bool)

  datatype Tables = Tables(users: map<Wallet, User>, sessions: map<SessionId, Session>)

  datatype Outcome =
    | Started(id: SessionId)
    | Beat(id: SessionId, replaced: bool)
    | Ended(closed: bool, durationSeconds: int, totalSessionSeconds: int)
    | Updated
    | Forbidden | UniqueViolation | NotFound | BadRequest

  const BATCH := 500

  /** The foreign key from sessions to users. */
  ghost predicate Linked(t: Tables) {
    forall id | id in t.sessions :: t.sessions[id].user in t.users
  }

  // ---------- closing sessions ----------

  function Max(a: int, b: int): int { if a < b then b else a }

  /** Whole seconds between two times in milliseconds, rounded down also when negative. */
  function WholeSeconds(from: int, to: int): int { (to - from) / 1000 }

  function Seconds(s: Session, until: int): int {
    Max(s.durationSeconds, WholeSeconds(s.startedAt, until))
  }

  function Close(s: Session, at: int): Session {
    s.(isOnline := false, lastSeenAt := at, endedAt := Some(at), durationSeconds := Seconds(s, at))
  }

  /** Close one session and credit its user with what the session's duration grew by. */
  function CloseSession(t: Tables, id: SessionId, at: int): (r: Tables)
    ensures r.users.Keys == t.users.Keys && r.sessions.Keys == t.sessions.Keys
  {
    if id !in t.sessions || t.sessions[id].user !in t.users then t
    else
      var s := t.sessions[id];
      var delta := Seconds(s, at) - s.durationSeconds;
      Tables(t.users[s.user := t.users[s.user].(totalSessionSeconds := t.users[s.user].totalSessionSeconds + delta)],
             t.sessions[id := Close(s, at)])
  }

  /** When a session is closed: at the given time, or when it was last seen. */
  function ClosingTime(s: Session, at: Option<int>): int {
    if at.Some? then at.value else s.lastSeenAt
  }

  function CloseEach(t: Tables, ids: seq<SessionId>, at: Option<int>): (r: Tables)
    ensures r.users.Keys == t.users.Keys && r.sessions.Keys == t.sessions.Keys
  {
    if |ids| == 0 then t
    else
      var before := CloseEach(t, ids[..|ids| - 1], at);
      var id := ids[|ids| - 1];
      if id in before.sessions then CloseSession(before, id, ClosingTime(before.sessions[id], at)) else before
  }

  // ---------- the queries ----------

  predicate IsOpen(s: Session) { s.isOnline && s.endedAt.None? }

  predicate Stale(s: Session, cutoff: int) { IsOpen(s) && s.lastSeenAt < cutoff }

  predicate OpenFor(s: Session, w: Wallet) { IsOpen(s) && s.user == w }

  predicate Distinct(ids: seq<SessionId>) {
    forall i, j | 0 <= i < j < |ids| :: ids[i] != ids[j]
  }

  /** What findMany with take: 500 may return for the stale sessions: no order is promised. */
  predicate StaleBatch(sessions: map<SessionId, Session>, cutoff: int, ids: seq<SessionId>) {
    && Distinct(ids) && |ids| <= BATCH
    && (forall id | id in ids :: id in sessions && Stale(sessions[id], cutoff))
    && (|ids| < BATCH ==> forall id | id in sessions && Stale(sessions[id], cutoff) :: id in ids)
  }

  predicate OpenBatch(sessions: map<SessionId, Session>, w: Wallet, ids: seq<SessionId>) {
    && Distinct(ids) && |ids| <= BATCH
    && (forall id | id in ids :: id in sessions && OpenFor(sessions[id], w))
    && (|ids| < BATCH ==> forall id | id in sessions && OpenFor(sessions[id], w) :: id in ids)
  }

  ghost predicate KeysUnique(sessions: map<SessionId, Session>) {
    forall i, j | i in sessions && j in sessions && sessions[i].key.Some? && sessions[i].key == sessions[j].key :: i == j
  }

  /** findUnique by session key. */
  ghost function FindByKey(sessions: map<SessionId, Session>, key: string): (r: Option<SessionId>)
    ensures r.Some? ==> r.value in sessions && sessions[r.value].key == Some(key)
    ensures r.None? ==> forall id | id in sessions :: sessions[id].key != Some(key)
  {
    if exists id :: id in sessions && sessions[id].key == Some(key)
    then var id :| id in sessions && sessions[id].key == Some(key); Some(id)
    else None
  }

  // ---------- the methods ----------

  /** syncWalletRoleAndBlockState: the stored role follows the admin table; an admin is never blocked. */
  function SyncRole(u: User, isAdmin: bool): User {
    u.(isAdmin := isAdmin, isBlocked := u.isBlocked && !isAdmin)
  }

  predicate BlockedForAccess(u: User) { !u.isAdmin && u.isBlocked }

  function Synced(t: Tables, w: Wallet, isAdmin: bool): Tables {
    if w in t.users then t.(users := t.users[w := SyncRole(t.users[w], isAdmin)]) else t
  }

  function UpsertUser(t: Tables, w: Wallet, isAdmin: bool): Tables {
    t.(users := t.users[w := if w in t.users then t.users[w].(isAdmin := isAdmin) else User(isAdmin, false, 0)])
  }

  function NewSession(w: Wallet, key: Option<string>, now: int): Session {
    Session(w, key, now, now, None, 0, true)
  }

  datatype StartArgs = StartArgs(
    wallet: Wallet, key: Option<string>, isAdmin: bool, cutoff: int, stale: seq<SessionId>, now: int, newId: SessionId)

  ghost predicate StartLegit(t: Tables, a: StartArgs) {
    Linked(t) && StaleBatch(t.sessions, a.cutoff, a.stale) && a.newId !in t.sessions
  }

  /** Find the open session with this key, or open a new one. */
  ghost function OpenOrReuse(t: Tables, w: Wallet, key: Option<string>, now: int, newId: SessionId): (Tables, Outcome) {
    var found := if key.Some? then FindByKey(t.sessions, key.value) else None;
    if found.Some? && t.sessions[found.value].user == w && t.sessions[found.value].endedAt.None? then
      (t.(sessions := t.sessions[found.value := t.sessions[found.value].(lastSeenAt := now, isOnline := true)]),
       Started(found.value))
    else if found.Some? then (t, UniqueViolation)
    else (t.(sessions := t.sessions[newId := NewSession(w, key, now)]), Started(newId))
  }

  ghost function Start(t: Tables, a: StartArgs): (Tables, Outcome)
    requires StartLegit(t, a)
  {
    var synced := Synced(t, a.wallet, a.isAdmin);
    if a.wallet in t.users && BlockedForAccess(synced.users[a.wallet]) then (synced, Forbidden)
    else OpenOrReuse(UpsertUser(CloseEach(synced, a.stale, None), a.wallet, a.isAdmin), a.wallet, a.key, a.now, a.newId)
  }

  /** A heartbeat; again holds what the fallback to startSession would see. */
  datatype BeatArgs = BeatArgs(id: SessionId, first: StartArgs, again: StartArgs)

  ghost predicate BeatLegit(t: Tables, a: BeatArgs) {
    && StartLegit(t, a.first)
    && StartLegit(CloseEach(t, a.first.stale, None), a.again)
    && a.again.wallet == a.first.wallet && a.again.key.None? && a.again.isAdmin == a.first.isAdmin
  }

  /** A heartbeat on an open session of the wallet: refreshed, or closed when the wallet is blocked. */
  function BeatOpen(t: Tables, w: Wallet, id: SessionId, isAdmin: bool, now: int): (Tables, Outcome)
    requires Linked(t) && id in t.sessions && t.sessions[id].user == w
  {
    var synced := Synced(t, w, isAdmin);
    if BlockedForAccess(synced.users[w]) then (CloseSession(synced, id, now), Forbidden)
    else
      (synced.(sessions := synced.sessions[id := synced.sessions[id].(isOnline := true, lastSeenAt := now)]), Beat(id, false))
  }

  ghost function Heartbeat(t: Tables, a: BeatArgs): (Tables, Outcome)
    requires BeatLegit(t, a)
  {
    var swept := CloseEach(t, a.first.stale, None);
    if a.id !in swept.sessions || swept.sessions[a.id].user != a.first.wallet || swept.sessions[a.id].endedAt.Some? then
      var fallback := Start(swept, a.again);
      (fallback.0, if fallback.1.Started? then Beat(fallback.1.id, true) else fallback.1)
    else BeatOpen(swept, a.first.wallet, a.id, a.first.isAdmin, a.first.now)
  }

  function End(t: Tables, w: Wallet, id: SessionId, now: int): (Tables, Outcome)
    requires Linked(t)
  {
    if id !in t.sessions || t.sessions[id].user != w then (t, Ended(false, 0, 0))
    else if t.sessions[id].endedAt.Some? then
      (t, Ended(false, t.sessions[id].durationSeconds, t.users[w].totalSessionSeconds))
    else
      var closed := CloseSession(t, id, now);
      (closed, Ended(true, closed.sessions[id].durationSeconds, closed.users[w].totalSessionSeconds))
  }

  datatype BlockArgs = BlockArgs(wallet: Wallet, block: bool, isAdmin: bool, open: seq<SessionId>, now: int)

  ghost predicate BlockLegit(t: Tables, a: BlockArgs) {
    Linked(t) && OpenBatch(t.sessions, a.wallet, a.open)
  }

  ghost function Block(t: Tables, a: BlockArgs): (Tables, Outcome)
    requires BlockLegit(t, a)
  {
    if a.wallet !in t.users then (t, NotFound)
    else
      var synced := Synced(t, a.wallet, a.isAdmin);
      if a.block && a.isAdmin then (synced, BadRequest)
      else
        var flagged := synced.(users := synced.users[a.wallet := synced.users[a.wallet].(isBlocked := a.block)]);
        (if a.block then CloseEach(flagged, a.open, Some(a.now)) else flagged, Updated)
  }

  // ---------- runs ----------

  datatype Op =
    | OpStart(start: StartArgs)
    | OpBeat(beat: BeatArgs)
    | OpEnd(wallet: Wallet, id: SessionId, now: int)
    | OpSweep(cutoff: int, stale: seq<SessionId>)
    | OpBlock(block: BlockArgs)

  /** The query results and the generated id are ones the database could give. */
  ghost predicate Legit(t: Tables, op: Op) {
    match op
    case OpStart(a) => StartLegit(t, a)
    case OpBeat(a) => BeatLegit(t, a)
    case OpEnd(_, _, _) => Linked(t)
    case OpSweep(cutoff, stale) => Linked(t) && StaleBatch(t.sessions, cutoff, stale)
    case OpBlock(a) => BlockLegit(t, a)
  }

  ghost function Step(t: Tables, op: Op): Tables {
    if !Legit(t, op) then t else
    match op
    case OpStart(a) => Start(t, a).0
    case OpBeat(a) => Heartbeat(t, a).0
    case OpEnd(w, id, now) => End(t, w, id, now).0
    case OpSweep(_, stale) => CloseEach(t, stale, None)
    case OpBlock(a) => Block(t, a).0
  }

  ghost function Run(t: Tables, ops: seq<Op>): Tables {
    if |ops| == 0 then t else Step(Run(t, ops[..|ops| - 1]), ops[|ops| - 1])
  }

  // ---------- the invariant ----------

  /** Online exactly while open; an ended session lasts the whole seconds from its start to its end. */
  ghost predicate GoodSession(s: Session) {
    && (s.isOnline <==> s.endedAt.None?)
    && s.durationSeconds == (if s.endedAt.None? then 0 else Max(0, WholeSeconds(s.startedAt, s.endedAt.value)))
  }

  ghost function Durations(sessions: map<SessionId, Session>, w: Wallet): map<SessionId, int> {
    map id | id in sessions && sessions[id].user == w :: sessions[id].durationSeconds
  }

  ghost predicate GoodSessions(t: Tables) {
    forall id | id in t.sessions :: GoodSession(t.sessions[id])
  }

  /** The denormalised total agrees with the sessions. */
  ghost predicate TotalsAgree(t: Tables) {
    forall w | w in t.users :: t.users[w].totalSessionSeconds == Sum(Durations(t.sessions, w))
  }

  ghost predicate Inv(t: Tables) {
    Linked(t) && KeysUnique(t.sessions) && GoodSessions(t) && TotalsAgree(t)
  }

  lemma DurationsSet(sessions: map<SessionId, Session>, id: SessionId, s: Session, w: Wallet)
    requires id in sessions ==> sessions[id].user == s.user
    ensures Sum(Durations(sessions[id := s], w))
            == Sum(Durations(sessions, w))
               + (if s.user == w then s.durationSeconds - (if id in sessions then sessions[id].durationSeconds else 0) else 0)
  {
    var d := Durations(sessions, w);
    if s.user == w {
      SumUpdate<SessionId>(d, id, s.durationSeconds);
      assert Durations(sessions[id := s], w) == d[id := s.durationSeconds];
    } else {
      assert Durations(sessions[id := s], w) == d;
    }
  }

  lemma CloseSessionKeepsTotals(t: Tables, id: SessionId, at: int)
    requires Linked(t) && TotalsAgree(t) && id in t.sessions
    ensures TotalsAgree(CloseSession(t, id, at))
  {
    forall w | w in t.users
      ensures CloseSession(t, id, at).users[w].totalSessionSeconds == Sum(Durations(CloseSession(t, id, at).sessions, w))
    {
      DurationsSet(t.sessions, id, Close(t.sessions[id], at), w);
    }
  }

  lemma KeysStayUnique(sessions: map<SessionId, Session>, id: SessionId, s: Session)
    requires KeysUnique(sessions)
    requires s.key.None? || (id in sessions && s.key == sessions[id].key) || (forall j | j in sessions :: sessions[j].key != s.key)
    ensures KeysUnique(sessions[id := s])
  {
  }

  lemma CloseSessionKeepsInv(t: Tables, id: SessionId, at: int)
    requires Inv(t) && id in t.sessions && t.sessions[id].endedAt.None?
    ensures Inv(CloseSession(t, id, at))
  {
    CloseSessionKeepsTotals(t, id, at);
    ClosedIsGood(t.sessions[id], at);
    RowReplaced(t, id, Close(t.sessions[id], at), CloseSession(t, id, at));
  }

  lemma ClosedIsGood(s: Session, at: int)
    requires GoodSession(s) && s.endedAt.None?
    ensures GoodSession(Close(s, at))
  {
  }

  lemma RowReplaced(t: Tables, id: SessionId, s: Session, r: Tables)
    requires Linked(t) && KeysUnique(t.sessions) && GoodSessions(t)
    requires id in t.sessions && s.user == t.sessions[id].user && s.key == t.sessions[id].key && GoodSession(s)
    requires r.sessions == t.sessions[id := s] && r.users.Keys == t.users.Keys
    ensures Linked(r) && KeysUnique(r.sessions) && GoodSessions(r)
  {
    KeysStayUnique(t.sessions, id, s);
  }

  /** The rows exist, with their users, and are listed once. */
  ghost predicate Known(t: Tables, ids: seq<SessionId>) {
    && Distinct(ids)
    && forall i | 0 <= i < |ids| :: ids[i] in t.sessions && t.sessions[ids[i]].user in t.users
  }

  /** What a batch of closings leaves: every listed session closed, every other one alone. */
  lemma {:induction false} CloseEachAt(t: Tables, ids: seq<SessionId>, at: Option<int>, id: SessionId)
    requires Known(t, ids) && id in t.sessions
    ensures CloseEach(t, ids, at).sessions[id]
            == if id in ids then Close(t.sessions[id], ClosingTime(t.sessions[id], at)) else t.sessions[id]
  {
    if |ids| > 0 {
      CloseEachAt(t, ids[..|ids| - 1], at, id);
      CloseEachAt(t, ids[..|ids| - 1], at, ids[|ids| - 1]);
      assert ids == ids[..|ids| - 1] + [ids[|ids| - 1]];
    }
  }

  lemma CloseEachNext(t: Tables, ids: seq<SessionId>, i: nat, at: Option<int>)
    requires Known(t, ids) && i < |ids|
    ensures CloseEach(t, ids[..i], at).sessions[ids[i]] == t.sessions[ids[i]]
    ensures CloseEach(t, ids[..i + 1], at)
            == CloseSession(CloseEach(t, ids[..i], at), ids[i], ClosingTime(t.sessions[ids[i]], at))
  {
    CloseEachAt(t, ids[..i], at, ids[i]);
    assert ids[..i + 1][..i] == ids[..i];
  }

  lemma {:induction false} CloseEachKeepsInv(t: Tables, ids: seq<SessionId>, at: Option<int>)
    requires Inv(t) && Distinct(ids) && forall id | id in ids :: id in t.sessions && t.sessions[id].endedAt.None?
    ensures Inv(CloseEach(t, ids, at))
  {
    if |ids| > 0 {
      CloseEachKeepsInv(t, ids[..|ids| - 1], at);
      CloseEachLast(t, ids, at);
      CloseOpenKeepsInv(CloseEach(t, ids[..|ids| - 1], at), ids[|ids| - 1], at, CloseEach(t, ids, at));
    }
  }

  lemma CloseEachLast(t: Tables, ids: seq<SessionId>, at: Option<int>)
    requires Known(t, ids) && |ids| > 0
    ensures var before := CloseEach(t, ids[..|ids| - 1], at);
      before.sessions[ids[|ids| - 1]] == t.sessions[ids[|ids| - 1]]
  {
    CloseEachNext(t, ids, |ids| - 1, at);
  }

  lemma CloseOpenKeepsInv(t: Tables, id: SessionId, at: Option<int>, closed: Tables)
    requires Inv(t) && id in t.sessions && t.sessions[id].endedAt.None?
    requires closed == CloseSession(t, id, ClosingTime(t.sessions[id], at))
    ensures Inv(closed)
  {
    CloseSessionKeepsInv(t, id, ClosingTime(t.sessions[id], at));
  }

  /** Putting one session row in place, by a fresh id or without touching owner and duration. */
  lemma PutKeepsInv(t: Tables, id: SessionId, s: Session)
    requires Inv(t) && GoodSession(s) && s.user in t.users
    requires if id in t.sessions then s.user == t.sessions[id].user && s.key == t.sessions[id].key
                                      && s.durationSeconds == t.sessions[id].durationSeconds
             else s.durationSeconds == 0 && (s.key.None? || forall j | j in t.sessions :: t.sessions[j].key != s.key)
    ensures Inv(t.(sessions := t.sessions[id := s]))
  {
    KeysStayUnique(t.sessions, id, s);
    PutKeepsTotals(t, id, s);
  }

  lemma PutKeepsTotals(t: Tables, id: SessionId, s: Session)
    requires TotalsAgree(t)
    requires if id in t.sessions then s.user == t.sessions[id].user && s.durationSeconds == t.sessions[id].durationSeconds
             else s.durationSeconds == 0
    ensures TotalsAgree(t.(sessions := t.sessions[id := s]))
  {
    forall w | w in t.users ensures t.users[w].totalSessionSeconds == Sum(Durations(t.sessions[id := s], w)) {
      DurationsSet(t.sessions, id, s, w);
    }
  }

  ghost predicate SameTotals(t: Tables, r: Tables) {
    && r.sessions == t.sessions && (forall w | w in t.users :: w in r.users)
    && forall w | w in r.users :: r.users[w].totalSessionSeconds == if w in t.users then t.users[w].totalSessionSeconds else 0
  }

  lemma SameTotalsKeepsInv(t: Tables, r: Tables)
    requires Inv(t) && SameTotals(t, r)
    ensures Inv(r)
  {
    forall w | w in r.users ensures r.users[w].totalSessionSeconds == Sum(Durations(r.sessions, w)) {
      if w !in t.users {
        assert Durations(r.sessions, w) == map[];
      }
    }
  }

  lemma OpenOrReuseKeepsInv(t: Tables, w: Wallet, key: Option<string>, now: int, newId: SessionId)
    requires Inv(t) && w in t.users && newId !in t.sessions
    ensures Inv(OpenOrReuse(t, w, key, now, newId).0)
  {
    var found := if key.Some? then FindByKey(t.sessions, key.value) else None;
    if found.Some? {
      PutKeepsInv(t, found.value, t.sessions[found.value].(lastSeenAt := now, isOnline := t.sessions[found.value].endedAt.None?));
    } else {
      PutKeepsInv(t, newId, NewSession(w, key, now));
    }
  }

  /** The tables a start finds when it looks for its key: the role is synced, the stale sessions are closed. */
  ghost function Swept(t: Tables, a: StartArgs): Tables {
    CloseEach(Synced(t, a.wallet, a.isAdmin), a.stale, None)
  }

  lemma SweptKeepsInv(t: Tables, a: StartArgs)
    requires Inv(t) && StartLegit(t, a)
    ensures Inv(Swept(t, a)) && a.newId !in Swept(t, a).sessions
  {
    var synced := Synced(t, a.wallet, a.isAdmin);
    SameTotalsKeepsInv(t, synced);
    CloseEachKeepsInv(synced, a.stale, None);
  }

  lemma StartKeepsInv(t: Tables, a: StartArgs)
    requires Inv(t) && StartLegit(t, a)
    ensures Inv(Start(t, a).0)
  {
    SameTotalsKeepsInv(t, Synced(t, a.wallet, a.isAdmin));
    SweptKeepsInv(t, a);
    StartFrom(Swept(t, a), a);
  }

  lemma StartFrom(swept: Tables, a: StartArgs)
    requires Inv(swept) && a.newId !in swept.sessions
    ensures Inv(OpenOrReuse(UpsertUser(swept, a.wallet, a.isAdmin), a.wallet, a.key, a.now, a.newId).0)
  {
    var upserted := UpsertUser(swept, a.wallet, a.isAdmin);
    SameTotalsKeepsInv(swept, upserted);
    OpenOrReuseKeepsInv(upserted, a.wallet, a.key, a.now, a.newId);
  }

  lemma BeatOpenKeepsInv(t: Tables, w: Wallet, id: SessionId, isAdmin: bool, now: int)
    requires Inv(t) && id in t.sessions && t.sessions[id].user == w && t.sessions[id].endedAt.None?
    ensures Inv(BeatOpen(t, w, id, isAdmin, now).0)
  {
    var synced := Synced(t, w, isAdmin);
    SameTotalsKeepsInv(t, synced);
    if BlockedForAccess(synced.users[w]) {
      CloseSessionKeepsInv(synced, id, now);
    } else {
      PutKeepsInv(synced, id, synced.sessions[id].(isOnline := true, lastSeenAt := now));
    }
  }

  lemma HeartbeatKeepsInv(t: Tables, a: BeatArgs)
    requires Inv(t) && BeatLegit(t, a)
    ensures Inv(Heartbeat(t, a).0)
  {
    CloseEachKeepsInv(t, a.first.stale, None);
    var swept := CloseEach(t, a.first.stale, None);
    if a.id !in swept.sessions || swept.sessions[a.id].user != a.first.wallet || swept.sessions[a.id].endedAt.Some? {
      StartKeepsInv(swept, a.again);
    } else {
      BeatOpenKeepsInv(swept, a.first.wallet, a.id, a.first.isAdmin, a.first.now);
    }
  }

  lemma BlockKeepsInv(t: Tables, a: BlockArgs)
    requires Inv(t) && BlockLegit(t, a)
    ensures Inv(Block(t, a).0)
  {
    if a.wallet in t.users {
      var synced := Synced(t, a.wallet, a.isAdmin);
      SameTotalsKeepsInv(t, synced);
      var flagged := synced.(users := synced.users[a.wallet := synced.users[a.wallet].(isBlocked := a.block)]);
      SameTotalsKeepsInv(synced, flagged);
      CloseEachKeepsInv(flagged, a.open, Some(a.now));
    }
  }

  lemma StepKeepsInv(t: Tables, op: Op)
    requires Inv(t)
    ensures Inv(Step(t, op))
  {
    if Legit(t, op) {
      match op
      case OpStart(a) => StartKeepsInv(t, a);
      case OpBeat(a) => HeartbeatKeepsInv(t, a);
      case OpEnd(w, id, now) =>
        if id in t.sessions && t.sessions[id].user == w && t.sessions[id].endedAt.None? {
          CloseSessionKeepsInv(t, id, now);
        }
      case OpSweep(_, stale) => CloseEachKeepsInv(t, stale, None);
      case OpBlock(a) => BlockKeepsInv(t, a);
    }
  }

  /** Over every run: a user's total is the sum of the durations of that user's sessions, a session is
      online exactly when it has no end, and an ended one lasts from its start to its end. */
  lemma {:induction false} RunKeepsInv(t: Tables, ops: seq<Op>)
    requires Inv(t)
    ensures Inv(Run(t, ops))
  {
    if |ops| > 0 {
      RunKeepsInv(t, ops[..|ops| - 1]);
      StepKeepsInv(Run(t, ops[..|ops| - 1]), ops[|ops| - 1]);
    }
  }

  // ---------- ended sessions are final ----------

  ghost predicate EndedKept(t: Tables, r: Tables) {
    forall id | id in t.sessions ::
      && id in r.sessions && r.sessions[id].user == t.sessions[id].user && r.sessions[id].startedAt == t.sessions[id].startedAt
      && (t.sessions[id].endedAt.Some? ==> r.sessions[id] == t.sessions[id])
  }

  lemma CloseEachKeepsEnded(t: Tables, ids: seq<SessionId>, at: Option<int>)
    requires Linked(t) && Distinct(ids) && forall id | id in ids :: id in t.sessions && t.sessions[id].endedAt.None?
    ensures EndedKept(t, CloseEach(t, ids, at))
  {
    forall id | id in t.sessions
      ensures CloseEach(t, ids, at).sessions[id]
              == if id in ids then Close(t.sessions[id], ClosingTime(t.sessions[id], at)) else t.sessions[id]
    {
      CloseEachAt(t, ids, at, id);
    }
  }

  lemma EndedKeptAcross(t: Tables, mid: Tables, r: Tables)
    requires EndedKept(t, mid) && EndedKept(mid, r)
    ensures EndedKept(t, r)
  {
  }

  lemma OpenOrReuseKeepsEnded(t: Tables, w: Wallet, key: Option<string>, now: int, newId: SessionId)
    requires newId !in t.sessions
    ensures EndedKept(t, OpenOrReuse(t, w, key, now, newId).0)
  {
  }

  lemma StartKeepsEnded(t: Tables, a: StartArgs)
    requires StartLegit(t, a)
    ensures EndedKept(t, Start(t, a).0)
  {
    var synced := Synced(t, a.wallet, a.isAdmin);
    if !(a.wallet in t.users && BlockedForAccess(synced.users[a.wallet])) {
      CloseEachKeepsEnded(synced, a.stale, None);
      var swept := CloseEach(synced, a.stale, None);
      var upserted := UpsertUser(swept, a.wallet, a.isAdmin);
      OpenOrReuseKeepsEnded(upserted, a.wallet, a.key, a.now, a.newId);
      EndedKeptAcross(synced, upserted, OpenOrReuse(upserted, a.wallet, a.key, a.now, a.newId).0);
    }
  }

  lemma BeatOpenKeepsEnded(t: Tables, w: Wallet, id: SessionId, isAdmin: bool, now: int)
    requires Linked(t) && id in t.sessions && t.sessions[id].user == w && t.sessions[id].endedAt.None?
    ensures EndedKept(t, BeatOpen(t, w, id, isAdmin, now).0)
  {
  }

  lemma HeartbeatKeepsEnded(t: Tables, a: BeatArgs)
    requires BeatLegit(t, a)
    ensures EndedKept(t, Heartbeat(t, a).0)
  {
    CloseEachKeepsEnded(t, a.first.stale, None);
    var swept := CloseEach(t, a.first.stale, None);
    if a.id !in swept.sessions || swept.sessions[a.id].user != a.first.wallet || swept.sessions[a.id].endedAt.Some? {
      StartKeepsEnded(swept, a.again);
    } else {
      BeatOpenKeepsEnded(swept, a.first.wallet, a.id, a.first.isAdmin, a.first.now);
    }
    EndedKeptAcross(t, swept, Heartbeat(t, a).0);
  }

  lemma StepKeepsEnded(t: Tables, op: Op)
    ensures EndedKept(t, Step(t, op))
  {
    if Legit(t, op) {
      match op
      case OpStart(a) => StartKeepsEnded(t, a);
      case OpBeat(a) => HeartbeatKeepsEnded(t, a);
      case OpEnd(_, _, _) =>
      case OpSweep(_, stale) => CloseEachKeepsEnded(t, stale, None);
      case OpBlock(a) =>
        if a.wallet in t.users {
          var synced := Synced(t, a.wallet, a.isAdmin);
          var flagged := synced.(users := synced.users[a.wallet := synced.users[a.wallet].(isBlocked := a.block)]);
          CloseEachKeepsEnded(flagged, a.open, Some(a.now));
        }
    }
  }

  /** An ended session never changes again, and no session ever changes owner or start. */
  lemma {:induction false} EndedIsFinal(t: Tables, ops: seq<Op>)
    ensures EndedKept(t, Run(t, ops))
  {
    if |ops| > 0 {
      var mid := Run(t, ops[..|ops| - 1]);
      EndedIsFinal(t, ops[..|ops| - 1]);
      StepKeepsEnded(mid, ops[|ops| - 1]);
      EndedKeptAcross(t, mid, Run(t, ops));
    }
  }

  // ---------- across methods ----------

  lemma EndOfEnded(before: Tables, t: Tables, w: Wallet, id: SessionId, later: int)
    requires Linked(t) && EndedKept(before, t)
    requires id in before.sessions && before.sessions[id].endedAt.Some? && before.sessions[id].user == w
    ensures End(t, w, id, later).0 == t && !End(t, w, id, later).1.closed
    ensures End(t, w, id, later).1.durationSeconds == before.sessions[id].durationSeconds
  {
  }

  /** Ending the same session again, after anything else happened, closes nothing, changes nothing and
      reports the same duration. */
  lemma EndAgain(t: Tables, w: Wallet, id: SessionId, now: int, ops: seq<Op>, later: int)
    requires Inv(t) && End(t, w, id, now).1.closed
    ensures
      var once := End(t, w, id, now);
      var last := Run(once.0, ops);
      Linked(last) && End(last, w, id, later).0 == last
      && !End(last, w, id, later).1.closed && End(last, w, id, later).1.durationSeconds == once.1.durationSeconds
  {
    CloseSessionKeepsInv(t, id, now);
    var once := End(t, w, id, now);
    RunKeepsInv(once.0, ops);
    EndedIsFinal(once.0, ops);
    EndOfEnded(once.0, Run(once.0, ops), w, id, later);
  }

  ghost predicate Offline(t: Tables, w: Wallet) {
    forall id | id in t.sessions && t.sessions[id].user == w :: t.sessions[id].endedAt.Some?
  }

  function OpenSessions(sessions: map<SessionId, Session>, w: Wallet): set<SessionId> {
    set id | id in sessions && OpenFor(sessions[id], w)
  }

  function StaleSessions(sessions: map<SessionId, Session>, cutoff: int): set<SessionId> {
    set id | id in sessions && Stale(sessions[id], cutoff)
  }

  lemma {:induction false} DistinctCard(ids: seq<SessionId>)
    requires Distinct(ids)
    ensures |set id | id in ids| == |ids|
  {
    if |ids| > 0 {
      var before, last := ids[..|ids| - 1], ids[|ids| - 1];
      DistinctCard(before);
      assert ids == before + [last];
      assert (set id | id in ids) == (set id | id in before) + {last};
    }
  }

  /** A query that is cut off at its limit returned all rows exactly when there are no more than the limit. */
  lemma BatchComplete(ids: seq<SessionId>, matching: set<SessionId>)
    requires Distinct(ids) && |ids| <= BATCH && forall id | id in ids :: id in matching
    requires |ids| < BATCH ==> forall id | id in matching :: id in ids
    ensures |matching| <= BATCH <==> forall id | id in matching :: id in ids
  {
    DistinctCard(ids);
    var listed := set id | id in ids;
    assert matching == listed + (matching - listed);
    if |matching| <= BATCH && |ids| == BATCH {
      assert |matching - listed| == 0;
    }
    if forall id | id in matching :: id in ids {
      assert matching == listed;
    }
  }

  /** Blocking closes all of a wallet's sessions exactly when it has no more open than the query returns. */
  lemma BlockTakesOffline(t: Tables, a: BlockArgs)
    requires Inv(t) && BlockLegit(t, a) && a.block && !a.isAdmin && a.wallet in t.users
    ensures Block(t, a).1 == Updated && BlockedForAccess(Block(t, a).0.users[a.wallet])
    ensures Offline(Block(t, a).0, a.wallet) <==> |OpenSessions(t.sessions, a.wallet)| <= 500
  {
    var synced := Synced(t, a.wallet, a.isAdmin);
    var flagged := synced.(users := synced.users[a.wallet := synced.users[a.wallet].(isBlocked := a.block)]);
    BatchComplete(a.open, OpenSessions(t.sessions, a.wallet));
    BatchTakesOffline(flagged, a.wallet, a.open, a.now);
    CloseEachKeepsFlags(flagged, a.open, Some(a.now), a.wallet);
  }

  lemma BatchTakesOffline(t: Tables, w: Wallet, open: seq<SessionId>, now: int)
    requires Linked(t) && GoodSessions(t) && OpenBatch(t.sessions, w, open)
    ensures Offline(CloseEach(t, open, Some(now)), w) <==> forall id | id in OpenSessions(t.sessions, w) :: id in open
  {
    var r := CloseEach(t, open, Some(now));
    forall id | id in t.sessions && t.sessions[id].user == w
      ensures r.sessions[id].user == w && (r.sessions[id].endedAt.Some? <==> id in open || id !in OpenSessions(t.sessions, w))
    {
      CloseEachAt(t, open, Some(now), id);
    }
    forall id | id in r.sessions ensures r.sessions[id].user == t.sessions[id].user {
      CloseEachAt(t, open, Some(now), id);
    }
  }

  lemma {:induction false} CloseEachKeepsFlags(t: Tables, ids: seq<SessionId>, at: Option<int>, w: Wallet)
    requires Linked(t) && (forall id | id in ids :: id in t.sessions) && w in t.users
    ensures CloseEach(t, ids, at).users[w].isBlocked == t.users[w].isBlocked
    ensures CloseEach(t, ids, at).users[w].isAdmin == t.users[w].isAdmin
  {
    if |ids| > 0 {
      CloseEachKeepsFlags(t, ids[..|ids| - 1], at, w);
    }
  }

  // ---------- a blocked wallet stays out ----------

  ghost predicate ShutOut(t: Tables, w: Wallet) {
    w in t.users && BlockedForAccess(t.users[w]) && Offline(t, w)
  }

  /** The operation neither lifts the block of w nor finds w among the admins. */
  predicate KeepsBlock(op: Op, w: Wallet) {
    match op
    case OpStart(a) => a.wallet == w ==> !a.isAdmin
    case OpBeat(a) => a.first.wallet == w ==> !a.first.isAdmin
    case OpBlock(a) => a.wallet == w ==> a.block && !a.isAdmin
    case _ => true
  }

  lemma CloseEachKeepsShut(t: Tables, ids: seq<SessionId>, at: Option<int>, w: Wallet)
    requires Linked(t) && Distinct(ids) && forall id | id in ids :: id in t.sessions && t.sessions[id].endedAt.None?
    requires ShutOut(t, w)
    ensures ShutOut(CloseEach(t, ids, at), w)
  {
    CloseEachKeepsFlags(t, ids, at, w);
    CloseEachKeepsEnded(t, ids, at);
  }

  lemma StartKeepsShut(t: Tables, a: StartArgs, w: Wallet)
    requires StartLegit(t, a) && ShutOut(t, w) && (a.wallet == w ==> !a.isAdmin)
    ensures ShutOut(Start(t, a).0, w)
    ensures a.wallet == w ==> Start(t, a).1 == Forbidden
  {
    if a.wallet != w {
      var synced := Synced(t, a.wallet, a.isAdmin);
      if !(a.wallet in t.users && BlockedForAccess(synced.users[a.wallet])) {
        CloseEachKeepsShut(synced, a.stale, None, w);
        OpenOrReuseKeepsShut(UpsertUser(CloseEach(synced, a.stale, None), a.wallet, a.isAdmin),
                             a.wallet, a.key, a.now, a.newId, w);
      }
    }
  }

  lemma OpenOrReuseKeepsShut(t: Tables, u: Wallet, key: Option<string>, now: int, newId: SessionId, w: Wallet)
    requires ShutOut(t, w) && u != w && newId !in t.sessions
    ensures ShutOut(OpenOrReuse(t, u, key, now, newId).0, w)
  {
  }

  lemma HeartbeatKeepsShut(t: Tables, a: BeatArgs, w: Wallet)
    requires BeatLegit(t, a) && ShutOut(t, w) && (a.first.wallet == w ==> !a.first.isAdmin)
    ensures ShutOut(Heartbeat(t, a).0, w)
    ensures a.first.wallet == w ==> Heartbeat(t, a).1 == Forbidden
  {
    CloseEachKeepsShut(t, a.first.stale, None, w);
    var swept := CloseEach(t, a.first.stale, None);
    if a.id !in swept.sessions || swept.sessions[a.id].user != a.first.wallet || swept.sessions[a.id].endedAt.Some? {
      StartKeepsShut(swept, a.again, w);
    }
  }

  lemma BlockKeepsShut(t: Tables, a: BlockArgs, w: Wallet)
    requires BlockLegit(t, a) && ShutOut(t, w) && (a.wallet == w ==> a.block && !a.isAdmin)
    ensures ShutOut(Block(t, a).0, w)
  {
    if a.wallet in t.users {
      var synced := Synced(t, a.wallet, a.isAdmin);
      var flagged := synced.(users := synced.users[a.wallet := synced.users[a.wallet].(isBlocked := a.block)]);
      assert ShutOut(flagged, w);
      CloseEachKeepsShut(flagged, a.open, Some(a.now), w);
    }
  }

  lemma StepKeepsShut(t: Tables, op: Op, w: Wallet)
    requires ShutOut(t, w) && KeepsBlock(op, w)
    ensures ShutOut(Step(t, op), w)
  {
    if Legit(t, op) {
      match op
      case OpStart(a) => StartKeepsShut(t, a, w);
      case OpBeat(a) => HeartbeatKeepsShut(t, a, w);
      case OpEnd(_, _, _) =>
      case OpSweep(_, stale) => CloseEachKeepsShut(t, stale, None, w);
      case OpBlock(a) => BlockKeepsShut(t, a, w);
    }
  }

  /** Once blocked and offline, a wallet has no open session until somebody unblocks it or makes it an admin. */
  lemma {:induction false} BlockedStaysOut(t: Tables, ops: seq<Op>, w: Wallet)
    requires ShutOut(t, w) && forall op | op in ops :: KeepsBlock(op, w)
    ensures ShutOut(Run(t, ops), w)
  {
    if |ops| > 0 {
      BlockedStaysOut(t, ops[..|ops| - 1], w);
      StepKeepsShut(Run(t, ops[..|ops| - 1]), ops[|ops| - 1], w);
    }
  }

  // ---------- what each method achieves ----------

  /** A sweep closes the sessions its query returned, at the time they were last seen, and no others. */
  lemma SweepExact(t: Tables, cutoff: int, stale: seq<SessionId>, id: SessionId)
    requires Inv(t) && StaleBatch(t.sessions, cutoff, stale) && id in t.sessions
    ensures
      var r := CloseEach(t, stale, None);
      && (id !in stale ==> r.sessions[id] == t.sessions[id])
      && (id in stale ==>
            && r.sessions[id].endedAt == Some(t.sessions[id].lastSeenAt) && r.sessions[id].lastSeenAt == t.sessions[id].lastSeenAt
            && r.sessions[id].durationSeconds == Max(0, WholeSeconds(t.sessions[id].startedAt, t.sessions[id].lastSeenAt)))
      && (Stale(r.sessions[id], cutoff) <==> id in StaleSessions(t.sessions, cutoff) && id !in stale)
  {
    CloseEachAt(t, stale, None, id);
  }

  /** It leaves no stale session exactly when there were no more than its query returns. */
  lemma SweepLeavesNoneStale(t: Tables, cutoff: int, stale: seq<SessionId>)
    requires Inv(t) && StaleBatch(t.sessions, cutoff, stale)
    ensures StaleSessions(CloseEach(t, stale, None).sessions, cutoff) == {} <==> |StaleSessions(t.sessions, cutoff)| <= 500
  {
    BatchComplete(stale, StaleSessions(t.sessions, cutoff));
    var r := CloseEach(t, stale, None);
    forall id | id in t.sessions
      ensures id in StaleSessions(r.sessions, cutoff) <==> id in StaleSessions(t.sessions, cutoff) && id !in stale
    {
      SweepExact(t, cutoff, stale, id);
    }
  }

  /** An open session of the wallet, just seen, with the key that was asked for. */
  ghost predicate Granted(t: Tables, id: SessionId, w: Wallet, key: Option<string>, now: int) {
    && id in t.sessions && IsOpen(t.sessions[id]) && t.sessions[id].user == w && t.sessions[id].lastSeenAt == now
    && (key.Some? ==> t.sessions[id].key == key)
  }

  /** The key belongs to a session that can not be taken over: another wallet's, or one that has ended. */
  ghost predicate KeyTaken(sessions: map<SessionId, Session>, w: Wallet, key: Option<string>) {
    key.Some? && exists id ::
      id in sessions && sessions[id].key == key && (sessions[id].user != w || sessions[id].endedAt.Some?)
  }

  lemma OpenOrReuseOutcome(t: Tables, w: Wallet, key: Option<string>, now: int, newId: SessionId)
    requires GoodSessions(t) && KeysUnique(t.sessions) && newId !in t.sessions
    ensures
      var (r, outcome) := OpenOrReuse(t, w, key, now, newId);
      if KeyTaken(t.sessions, w, key) then outcome == UniqueViolation && r == t
      else outcome.Started? && Granted(r, outcome.id, w, key, now)
  {
    if key.Some? {
      var found := FindByKey(t.sessions, key.value);
      if found.Some? {
        assert t.sessions[found.value].key == key;
      }
    }
  }

  /** A start is refused exactly to a wallet that is blocked and no admin, and otherwise fails exactly when its key
      is taken once the stale sessions are closed; else it grants an open session. */
  lemma StartOutcome(t: Tables, a: StartArgs)
    requires Inv(t) && StartLegit(t, a)
    ensures Start(t, a).1 == Forbidden <==> a.wallet in t.users && t.users[a.wallet].isBlocked && !a.isAdmin
    ensures Start(t, a).1 == UniqueViolation <==> Start(t, a).1 != Forbidden && KeyTaken(Swept(t, a).sessions, a.wallet, a.key)
    ensures Start(t, a).1 != Forbidden && Start(t, a).1 != UniqueViolation ==>
      Start(t, a).1.Started? && Granted(Start(t, a).0, Start(t, a).1.id, a.wallet, a.key, a.now)
  {
    if !(a.wallet in t.users && t.users[a.wallet].isBlocked && !a.isAdmin) {
      SweptKeepsInv(t, a);
      StartUnblocked(t, a);
      OpenOrReuseOutcome(UpsertUser(Swept(t, a), a.wallet, a.isAdmin), a.wallet, a.key, a.now, a.newId);
    }
  }

  lemma StartUnblocked(t: Tables, a: StartArgs)
    requires StartLegit(t, a) && !(a.wallet in t.users && t.users[a.wallet].isBlocked && !a.isAdmin)
    ensures Start(t, a) == OpenOrReuse(UpsertUser(Swept(t, a), a.wallet, a.isAdmin), a.wallet, a.key, a.now, a.newId)
  {
  }

  lemma BeatOpenOutcome(t: Tables, w: Wallet, id: SessionId, isAdmin: bool, now: int)
    requires Linked(t) && GoodSessions(t) && id in t.sessions && t.sessions[id].user == w && t.sessions[id].endedAt.None?
    ensures
      var (r, outcome) := BeatOpen(t, w, id, isAdmin, now);
      if t.users[w].isBlocked && !isAdmin then outcome == Forbidden && r.sessions[id] == Close(t.sessions[id], now)
      else outcome == Beat(id, false) && Granted(r, id, w, None, now)
  {
  }

  /** A heartbeat that is answered names an open session of the wallet that was just seen: the one it asked for
      if that is still open after the sweep, a new one otherwise. */
  lemma HeartbeatOutcome(t: Tables, a: BeatArgs)
    requires Inv(t) && BeatLegit(t, a)
    ensures
      var (r, outcome) := Heartbeat(t, a);
      outcome.Beat? ==>
        && Granted(r, outcome.id, a.first.wallet, None, if outcome.replaced then a.again.now else a.first.now)
        && outcome.id == (if outcome.replaced then a.again.newId else a.id)
    ensures Heartbeat(t, a).1 == Forbidden || Heartbeat(t, a).1.Beat?
  {
    CloseEachKeepsInv(t, a.first.stale, None);
    var swept := CloseEach(t, a.first.stale, None);
    if a.id !in swept.sessions || swept.sessions[a.id].user != a.first.wallet || swept.sessions[a.id].endedAt.Some? {
      StartOutcome(swept, a.again);
      FreshStartId(swept, a.again);
    } else {
      BeatOpenOutcome(swept, a.first.wallet, a.id, a.first.isAdmin, a.first.now);
    }
  }

  /** Without a key a start always makes a new row. */
  lemma FreshStartId(t: Tables, a: StartArgs)
    requires StartLegit(t, a) && a.key.None?
    ensures Start(t, a).1 == Forbidden || Start(t, a).1 == Started(a.newId)
  {
  }

  // ---------- more sessions than a query returns ----------

  /** Ids of different lengths. */
  function IdOf(i: nat): SessionId {
    seq(i, _ => 'x')
  }

  function FirstIds(n: nat): seq<SessionId> {
    seq(n, i requires 0 <= i < n => IdOf(i))
  }

  lemma IdsDiffer(i: nat, j: nat)
    requires i != j
    ensures IdOf(i) != IdOf(j)
  {
    assert |IdOf(i)| == i && |IdOf(j)| == j;
  }

  function KeylessStart(w: Wallet, i: nat): Op {
    OpStart(StartArgs(w, None, false, 0, [], 0, IdOf(i)))
  }

  /** n starts of one wallet without a session key, all at time 0. */
  function Starts(w: Wallet, n: nat): seq<Op> {
    seq(n, i requires 0 <= i < n => KeylessStart(w, i))
  }

  /** One user, not blocked, with the n sessions opened so far. */
  ghost predicate Opened(t: Tables, w: Wallet, n: nat) {
    && t.users == (if n == 0 then map[] else map[w := User(false, false, 0)])
    && (forall id | id in t.sessions :: |id| < n && id == IdOf(|id|) && t.sessions[id] == NewSession(w, None, 0))
    && (forall i: nat | i < n :: IdOf(i) in t.sessions)
  }

  lemma OneMoreOpened(t: Tables, w: Wallet, n: nat)
    requires Opened(t, w, n) && Linked(t)
    ensures Opened(Step(t, KeylessStart(w, n)), w, n + 1)
  {
    var a := KeylessStart(w, n).start;
    assert |IdOf(n)| == n;
    assert a.newId !in t.sessions;
    assert StaleBatch(t.sessions, 0, []);
    assert CloseEach(Synced(t, w, false), [], None) == Synced(t, w, false);
    var r := Step(t, KeylessStart(w, n));
    assert r.sessions == t.sessions[IdOf(n) := NewSession(w, None, 0)];
    assert r.users == map[w := User(false, false, 0)];
    forall id | id in r.sessions ensures |id| < n + 1 && id == IdOf(|id|) {
      assert id in t.sessions || id == IdOf(n);
    }
  }

  lemma {:induction false} ManyStarts(w: Wallet, n: nat)
    ensures Opened(Run(Tables(map[], map[]), Starts(w, n)), w, n)
    ensures Inv(Run(Tables(map[], map[]), Starts(w, n)))
  {
    if n > 0 {
      ManyStarts(w, n - 1);
      StartsSnoc(w, n - 1);
      NextStart(Run(Tables(map[], map[]), Starts(w, n - 1)), w, n - 1, Run(Tables(map[], map[]), Starts(w, n)));
    }
  }

  lemma NextStart(t: Tables, w: Wallet, n: nat, next: Tables)
    requires Opened(t, w, n) && Inv(t) && next == Step(t, KeylessStart(w, n))
    ensures Opened(next, w, n + 1) && Inv(next)
  {
    OneMoreOpened(t, w, n);
    StepKeepsInv(t, KeylessStart(w, n));
  }

  lemma StartsSnoc(w: Wallet, n: nat)
    ensures Run(Tables(map[], map[]), Starts(w, n + 1))
            == Step(Run(Tables(map[], map[]), Starts(w, n)), KeylessStart(w, n))
  {
    assert Starts(w, n + 1)[..n] == Starts(w, n);
  }

  /** The first 500 of the ids are what a query for open or for stale sessions may return. */
  lemma FirstIdsReturned(t: Tables, w: Wallet)
    requires Opened(t, w, BATCH + 1)
    ensures OpenBatch(t.sessions, w, FirstIds(BATCH)) && StaleBatch(t.sessions, 1, FirstIds(BATCH))
    ensures |OpenSessions(t.sessions, w)| > BATCH && |StaleSessions(t.sessions, 1)| > BATCH
  {
    var ids := FirstIds(BATCH + 1);
    forall i, j | 0 <= i < j < |ids| ensures ids[i] != ids[j] {
      IdsDiffer(i, j);
    }
    DistinctCard(ids);
    var listed := set id | id in ids;
    forall id | id in ids ensures id in t.sessions && OpenFor(t.sessions[id], w) && Stale(t.sessions[id], 1) {
      var i :| 0 <= i < |ids| && ids[i] == id;
      assert IdOf(i) in t.sessions;
    }
    assert FirstIds(BATCH) == ids[..BATCH];
    forall id | id in FirstIds(BATCH) ensures id in ids {
    }
    SubsetCard(listed, OpenSessions(t.sessions, w));
    SubsetCard(listed, StaleSessions(t.sessions, 1));
  }

  /** 501 starts, then a block: the wallet is blocked and still has an open session. */
  lemma BlockLeavesOneOpen(w: Wallet, now: int)
    ensures
      var t := Run(Tables(map[], map[]), Starts(w, BATCH + 1));
      var a := BlockArgs(w, true, false, FirstIds(BATCH), now);
      BlockLegit(t, a) && Block(t, a).1 == Updated && !Offline(Block(t, a).0, w)
  {
    ManyStarts(w, BATCH + 1);
    var t := Run(Tables(map[], map[]), Starts(w, BATCH + 1));
    FirstIdsReturned(t, w);
    BlockTakesOffline(t, BlockArgs(w, true, false, FirstIds(BATCH), now));
  }

  /** 501 starts, then a sweep when all of them are stale: one stale session is left. */
  lemma SweepLeavesOneStale(w: Wallet)
    ensures
      var t := Run(Tables(map[], map[]), Starts(w, BATCH + 1));
      Legit(t, OpSweep(1, FirstIds(BATCH))) && StaleSessions(Step(t, OpSweep(1, FirstIds(BATCH))).sessions, 1) != {}
  {
    ManyStarts(w, BATCH + 1);
    var t := Run(Tables(map[], map[]), Starts(w, BATCH + 1));
    FirstIdsReturned(t, w);
    SweepLeavesNoneStale(t, 1, FirstIds(BATCH));
  }
}
