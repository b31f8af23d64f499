/** The login challenges of apps/api/src/auth/auth.service.ts and users/users-wallet-auth.service.ts: one row
    per wallet, shared by both verifiers, as an interleaving of their database commands and clock readings. */
module Challenges {
  import opened Wrappers

  type Wallet = string

  datatype Challenge = Challenge(message: string, expiresAt: int)

  type Table = map<Wallet, Challenge>

  /** A challenge as it was issued. */
  datatype Issued = Issued(wallet: Wallet, challenge: Challenge)

  /** A successful consumption: which verifier, what, and the clock reading its delete carried. */
  datatype Consumed = Consumed(verifier: nat, wallet: Wallet, message: string, at: int)

  /** How far a verification has got. signed tells whether the signature is valid for wallet and message. */
  datatype Phase =
    | Reading(wallet: Wallet, message: string, signed: bool)
    | Fetched(wallet: Wallet, message: string, signed: bool, row: Option<Challenge>)
    | Checked(wallet: Wallet, message: string)
    | Deleting(wallet: Wallet, message: string, at: int)
    | Accepted | Refused

  /** The table and the clock; both logs are history. */
  datatype State = State(
    now: int, table: Table, verifiers: map<nat, Phase>, issued: seq<Issued>, consumed: seq<Consumed>)

  datatype Action =
    | Tick(now: int)
    | Prune(at: int)
    | Issue(wallet: Wallet, challenge: Challenge)
    | Begin(verifier: nat, wallet: Wallet, message: string, signed: bool)
    | Read(verifier: nat)
    | Check(verifier: nat)
    | BuildDelete(verifier: nat)
    | Delete(verifier: nat)

  // ---------- the commands ----------

  /** deleteMany where expiresAt <= at. */
  function Pruned(table: Table, at: int): Table {
    map w | w in table && table[w].expiresAt > at :: table[w]
  }

  /** deleteMany where wallet, message and expiresAt > at: matches at most one row. */
  predicate DeleteMatches(table: Table, wallet: Wallet, message: string, at: int) {
    wallet in table && table[wallet].message == message && table[wallet].expiresAt > at
  }

  /** The check after findUnique. */
  predicate Acceptable(row: Option<Challenge>, message: string, now: int) {
    row.Some? && row.value.message == message && row.value.expiresAt > now
  }

  function Step(s: State, a: Action): State {
    match a
    case Tick(now) => if now >= s.now then s.(now := now) else s
    case Prune(at) => if at <= s.now then s.(table := Pruned(s.table, at)) else s
    case Issue(w, c) =>
      // Nonces are random: no message is ever issued twice.
      if exists i :: 0 <= i < |s.issued| && s.issued[i].challenge.message == c.message then s
      else s.(table := s.table[w := c], issued := s.issued + [Issued(w, c)])
    case Begin(v, w, message, signed) =>
      if v in s.verifiers then s else s.(verifiers := s.verifiers[v := Reading(w, message, signed)])
    case Read(v) =>
      if v !in s.verifiers || !s.verifiers[v].Reading? then s
      else
        var p := s.verifiers[v];
        var row := if p.wallet in s.table then Some(s.table[p.wallet]) else None;
        s.(verifiers := s.verifiers[v := Fetched(p.wallet, p.message, p.signed, row)])
    case Check(v) =>
      if v !in s.verifiers || !s.verifiers[v].Fetched? then s
      else
        var p := s.verifiers[v];
        s.(verifiers := s.verifiers[v :=
             if Acceptable(p.row, p.message, s.now) && p.signed then Checked(p.wallet, p.message) else Refused])
    case BuildDelete(v) =>
      if v !in s.verifiers || !s.verifiers[v].Checked? then s
      else s.(verifiers := s.verifiers[v := Deleting(s.verifiers[v].wallet, s.verifiers[v].message, s.now)])
    case Delete(v) =>
      if v !in s.verifiers || !s.verifiers[v].Deleting? then s
      else
        var p := s.verifiers[v];
        if DeleteMatches(s.table, p.wallet, p.message, p.at) then
          s.(table := s.table - {p.wallet}, verifiers := s.verifiers[v := Accepted],
             consumed := s.consumed + [Consumed(v, p.wallet, p.message, p.at)])
        else s.(verifiers := s.verifiers[v := Refused])
  }

  function Run(s: State, actions: seq<Action>): State {
    if |actions| == 0 then s else Step(Run(s, actions[..|actions| - 1]), actions[|actions| - 1])
  }

  function Empty(now: int): State {
    State(now, map[], map[], [], [])
  }

  // ---------- every interleaving ----------

  /** The challenge last issued to a wallet. */
  function Latest(issued: seq<Issued>, w: Wallet): Option<Challenge> {
    if |issued| == 0 then None
    else if issued[|issued| - 1].wallet == w then Some(issued[|issued| - 1].challenge)
    else Latest(issued[..|issued| - 1], w)
  }

  ghost predicate MessagesDistinct(issued: seq<Issued>) {
    forall i, j | 0 <= i < j < |issued| :: issued[i].challenge.message != issued[j].challenge.message
  }

  /** A row is the latest challenge of its wallet. */
  ghost predicate RowsAreLatest(s: State) {
    forall w | w in s.table :: Issued(w, s.table[w]) in s.issued && Latest(s.issued, w) == Some(s.table[w])
  }

  ghost predicate Spent(s: State, c: Consumed) {
    && (exists i :: 0 <= i < |s.issued| && s.issued[i].wallet == c.wallet
                    && s.issued[i].challenge.message == c.message && c.at < s.issued[i].challenge.expiresAt)
    && forall w | w in s.table :: s.table[w].message != c.message
  }

  ghost predicate ConsumedOnce(s: State) {
    && (forall i | 0 <= i < |s.consumed| :: Spent(s, s.consumed[i]) && s.consumed[i].at <= s.now)
    && (forall i, j | 0 <= i < j < |s.consumed| :: s.consumed[i].message != s.consumed[j].message)
  }

  ghost predicate Inv(s: State) {
    && MessagesDistinct(s.issued) && RowsAreLatest(s) && ConsumedOnce(s)
    && forall v | v in s.verifiers && s.verifiers[v].Deleting? :: s.verifiers[v].at <= s.now
  }

  lemma OneRowPerMessage(s: State, v: Wallet, w: Wallet)
    requires MessagesDistinct(s.issued) && RowsAreLatest(s)
    requires v in s.table && w in s.table && s.table[v].message == s.table[w].message
    ensures v == w
  {
    var i :| 0 <= i < |s.issued| && s.issued[i] == Issued(v, s.table[v]);
    var j :| 0 <= j < |s.issued| && s.issued[j] == Issued(w, s.table[w]);
    assert i == j;
  }

  lemma FewerRowsKeepInv(s: State, t: State)
    requires Inv(s)
    requires t.issued == s.issued && t.consumed == s.consumed && t.verifiers == s.verifiers && t.now >= s.now
    requires forall w | w in t.table :: w in s.table && t.table[w] == s.table[w]
    ensures Inv(t)
  {
  }

  lemma IssueKeepsInv(s: State, w: Wallet, c: Challenge)
    requires Inv(s) && !(exists i :: 0 <= i < |s.issued| && s.issued[i].challenge.message == c.message)
    ensures Inv(Step(s, Issue(w, c)))
  {
    var t := Step(s, Issue(w, c));
    assert t.issued[..|t.issued| - 1] == s.issued;
    assert t.issued[|s.issued|] == Issued(w, c);
    forall x | x in t.table ensures Issued(x, t.table[x]) in t.issued && Latest(t.issued, x) == Some(t.table[x]) {
      if x != w {
        assert Issued(x, s.table[x]) in s.issued;
      }
    }
    forall k | 0 <= k < |s.consumed| ensures Spent(t, s.consumed[k]) {
      assert Spent(s, s.consumed[k]);
      var i :| 0 <= i < |s.issued| && s.issued[i].wallet == s.consumed[k].wallet
               && s.issued[i].challenge.message == s.consumed[k].message && s.consumed[k].at < s.issued[i].challenge.expiresAt;
      assert t.issued[i] == s.issued[i];
    }
  }

  lemma DeleteKeepsInv(s: State, v: nat)
    requires Inv(s) && v in s.verifiers && s.verifiers[v].Deleting?
    ensures Inv(Step(s, Delete(v)))
  {
    var p, t := s.verifiers[v], Step(s, Delete(v));
    if DeleteMatches(s.table, p.wallet, p.message, p.at) {
      var c := Consumed(v, p.wallet, p.message, p.at);
      var i :| 0 <= i < |s.issued| && s.issued[i] == Issued(p.wallet, s.table[p.wallet]);
      assert t.issued[i].wallet == c.wallet && t.issued[i].challenge.message == c.message;
      forall w | w in t.table ensures t.table[w].message != p.message {
        if s.table[w].message == p.message {
          OneRowPerMessage(s, w, p.wallet);
        }
      }
      assert Spent(t, c);
      forall k | 0 <= k < |s.consumed| ensures Spent(t, s.consumed[k]) && s.consumed[k].message != p.message {
        assert Spent(s, s.consumed[k]);
      }
      assert RowsAreLatest(t);
    }
  }

  lemma StepKeepsInv(s: State, a: Action)
    requires Inv(s)
    ensures Inv(Step(s, a))
  {
    match a
    case Tick(_) => FewerRowsKeepInv(s, Step(s, a));
    case Prune(_) => FewerRowsKeepInv(s, Step(s, a));
    case Issue(w, c) =>
      if !(exists i :: 0 <= i < |s.issued| && s.issued[i].challenge.message == c.message) {
        IssueKeepsInv(s, w, c);
      }
    case Delete(v) =>
      if v in s.verifiers && s.verifiers[v].Deleting? {
        DeleteKeepsInv(s, v);
      }
    case _ =>
  }

  lemma {:induction false} RunKeepsInv(now: int, actions: seq<Action>)
    ensures Inv(Run(Empty(now), actions))
  {
    if |actions| > 0 {
      RunKeepsInv(now, actions[..|actions| - 1]);
      StepKeepsInv(Run(Empty(now), actions[..|actions| - 1]), actions[|actions| - 1]);
    }
  }

  /** In every run each consumption is of a challenge that was issued to that wallet, by a delete whose clock
      reading was before its expiry, and no two consumptions are of one challenge. */
  lemma ConsumedAtMostOnceInTime(now: int, actions: seq<Action>, k: nat)
    requires k < |Run(Empty(now), actions).consumed|
    ensures
      var s := Run(Empty(now), actions);
      var c := s.consumed[k];
      && (exists i :: 0 <= i < |s.issued| && s.issued[i].wallet == c.wallet
                      && s.issued[i].challenge.message == c.message && c.at < s.issued[i].challenge.expiresAt)
      && c.at <= s.now
      && forall j | 0 <= j < |s.consumed| && s.consumed[j].message == c.message :: j == k
  {
    RunKeepsInv(now, actions);
    var s := Run(Empty(now), actions);
    assert Spent(s, s.consumed[k]);
  }

  /** What is consumed is the latest challenge of its wallet: issuing a new one revokes the old. */
  lemma OnlyLatestIsConsumed(now: int, actions: seq<Action>, a: Action)
    requires |Step(Run(Empty(now), actions), a).consumed| > |Run(Empty(now), actions).consumed|
    ensures
      var s, t := Run(Empty(now), actions), Step(Run(Empty(now), actions), a);
      var c, latest := t.consumed[|t.consumed| - 1], Latest(s.issued, t.consumed[|t.consumed| - 1].wallet);
      latest.Some? && latest.value.message == c.message
  {
    RunKeepsInv(now, actions);
  }

  // ---------- accepted verifications ----------

  /** The verifiers that were accepted are those of the consumptions. */
  ghost predicate AcceptedConsumed(s: State) {
    && (forall v | v in s.verifiers && s.verifiers[v].Accepted? :: exists k :: 0 <= k < |s.consumed| && s.consumed[k].verifier == v)
    && (forall k | 0 <= k < |s.consumed| :: s.consumed[k].verifier in s.verifiers && s.verifiers[s.consumed[k].verifier].Accepted?)
  }

  /** What a verification in progress was asked, with a signature that is valid once it is past the check. */
  ghost predicate Asked(actions: seq<Action>, v: nat, p: Phase) {
    match p
    case Reading(w, m, signed) => Begin(v, w, m, signed) in actions
    case Fetched(w, m, signed, _) => Begin(v, w, m, signed) in actions
    case Checked(w, m) => Begin(v, w, m, true) in actions
    case Deleting(w, m, _) => Begin(v, w, m, true) in actions
    case _ => true
  }

  ghost predicate AllAsked(s: State, actions: seq<Action>) {
    && (forall v | v in s.verifiers :: Asked(actions, v, s.verifiers[v]))
    && forall k | 0 <= k < |s.consumed| ::
         Begin(s.consumed[k].verifier, s.consumed[k].wallet, s.consumed[k].message, true) in actions
  }

  lemma StepAsked(s: State, actions: seq<Action>, a: Action)
    requires AllAsked(s, actions)
    ensures AllAsked(Step(s, a), actions + [a])
  {
    var t := Step(s, a);
    forall v | v in t.verifiers ensures Asked(actions + [a], v, t.verifiers[v]) {
      if v in s.verifiers {
        assert Asked(actions, v, s.verifiers[v]);
      }
    }
  }

  lemma StepAccepted(s: State, a: Action)
    requires AcceptedConsumed(s)
    ensures AcceptedConsumed(Step(s, a))
  {
    var t := Step(s, a);
    forall v | v in t.verifiers && t.verifiers[v].Accepted?
      ensures exists k :: 0 <= k < |t.consumed| && t.consumed[k].verifier == v
    {
      if v in s.verifiers && s.verifiers[v].Accepted? {
        var k :| 0 <= k < |s.consumed| && s.consumed[k].verifier == v;
        assert t.consumed[k].verifier == v;
      } else {
        assert t.consumed[|s.consumed|].verifier == v;
      }
    }
  }

  lemma {:induction false} RunAccepted(now: int, actions: seq<Action>)
    ensures AcceptedConsumed(Run(Empty(now), actions)) && AllAsked(Run(Empty(now), actions), actions)
  {
    if |actions| > 0 {
      var before, a := actions[..|actions| - 1], actions[|actions| - 1];
      RunAccepted(now, before);
      StepAccepted(Run(Empty(now), before), a);
      StepAsked(Run(Empty(now), before), before, a);
      assert before + [a] == actions;
    }
  }

  /** A verification that is accepted was asked with a valid signature for the challenge it consumed, and two
      that are accepted consumed different challenges. */
  lemma AcceptedNeedsOwnChallenge(now: int, actions: seq<Action>, v: nat, w: nat)
    requires
      var s := Run(Empty(now), actions);
      v in s.verifiers && s.verifiers[v].Accepted? && w in s.verifiers && s.verifiers[w].Accepted?
    ensures exists k, l ::
      var s := Run(Empty(now), actions);
      && 0 <= k < |s.consumed| && 0 <= l < |s.consumed| && s.consumed[k].verifier == v && s.consumed[l].verifier == w
      && Begin(v, s.consumed[k].wallet, s.consumed[k].message, true) in actions
      && (v != w ==> s.consumed[k].message != s.consumed[l].message)
  {
    RunAccepted(now, actions);
    RunKeepsInv(now, actions);
    var s := Run(Empty(now), actions);
    var k :| 0 <= k < |s.consumed| && s.consumed[k].verifier == v;
    var l :| 0 <= l < |s.consumed| && s.consumed[l].verifier == w;
    if v != w {
      assert k < l || l < k;
    }
  }

  // ---------- a challenge is not lost ----------

  /** A row goes only because its wallet asked for another challenge, because it expired, or because it was consumed. */
  lemma {:induction false} RowLostOnlyTo(s: State, more: seq<Action>, w: Wallet)
    requires w in s.table
    ensures
      var t := Run(s, more);
      || (w in t.table && t.table[w] == s.table[w])
      || (exists c :: Issue(w, c) in more)
      || t.now >= s.table[w].expiresAt
      || (exists k :: |s.consumed| <= k < |t.consumed| && t.consumed[k].message == s.table[w].message)
    ensures s.consumed <= Run(s, more).consumed && s.now <= Run(s, more).now
  {
    if |more| > 0 {
      var before, a := more[..|more| - 1], more[|more| - 1];
      RowLostOnlyTo(s, before, w);
      var mid, t := Run(s, before), Run(s, more);
      if exists c :: Issue(w, c) in before {
        var c :| Issue(w, c) in before;
        assert Issue(w, c) in more;
      } else if exists k :: |s.consumed| <= k < |mid.consumed| && mid.consumed[k].message == s.table[w].message {
        var k :| |s.consumed| <= k < |mid.consumed| && mid.consumed[k].message == s.table[w].message;
        assert t.consumed[k] == mid.consumed[k];
      } else if mid.now < s.table[w].expiresAt {
        assert a in more;
        assert w in mid.table && mid.table[w] == s.table[w];
        LostInOneStep(mid, a, w);
        if |t.consumed| > |mid.consumed| && !(w in t.table && t.table[w] == s.table[w]) {
          assert t.consumed[|mid.consumed|].message == s.table[w].message || a.Issue?;
        }
      }
    }
  }

  lemma LostInOneStep(s: State, a: Action, w: Wallet)
    requires w in s.table
    ensures
      var t := Step(s, a);
      || (w in t.table && t.table[w] == s.table[w])
      || (a.Issue? && a.wallet == w)
      || t.now >= s.table[w].expiresAt
      || (|t.consumed| == |s.consumed| + 1 && t.consumed[|s.consumed|].message == s.table[w].message)
  {
  }

  // ---------- the services, uninterrupted ----------

  /** Both services on the one table. Clock readings are parameters, in the order they are taken. */
  class AuthService {
    var table: Table

    constructor ()
      ensures table == map[]
    {
      table := map[];
    }

    /** getNonce and createWalletAuthNonce. */
    method CreateNonce(wallet: Wallet, message: string, pruneAt: int, expiresAt: int)
      modifies this
      ensures table == Pruned(old(table), pruneAt)[wallet := Challenge(message, expiresAt)]
      ensures forall w :: w in table <==> w == wallet || (w in old(table) && old(table)[w].expiresAt > pruneAt)
      ensures table[wallet].message == message && table[wallet].expiresAt == expiresAt
      ensures forall w | w in table && w != wallet :: table[w] == old(table)[w]
    {
      PruneExpired(pruneAt);
      table := table[wallet := Challenge(message, expiresAt)];
    }

    method PruneExpired(at: int)
      modifies this
      ensures table == Pruned(old(table), at)
    {
      table := map w | w in table && !(table[w].expiresAt <= at) :: table[w];
    }

    /** deleteMany returns how many rows it removed. */
    method DeleteMany(wallet: Wallet, message: string, at: int) returns (count: nat)
      modifies this
      ensures count == if DeleteMatches(old(table), wallet, message, at) then 1 else 0
      ensures table == if count == 1 then old(table) - {wallet} else old(table)
      ensures count == 1 <==> wallet in old(table) && old(table)[wallet].message == message && at < old(table)[wallet].expiresAt
    {
      if wallet in table && table[wallet].message == message && table[wallet].expiresAt > at {
        table := table - {wallet};
        return 1;
      }
      return 0;
    }

    /** verifyWallet and verifyWalletAuth up to the consumed challenge: the same steps as the interleaving of
        one verifier that nobody interrupts. */
    method Verify(wallet: Wallet, message: string, signed: bool, pruneAt: int, checkAt: int, deleteAt: int)
      returns (accepted: bool)
      requires pruneAt <= checkAt <= deleteAt
      modifies this
      ensures var t := VerifyAlone(old(table), wallet, message, signed, pruneAt, checkAt, deleteAt);
              table == t.table && accepted == t.verifiers[0].Accepted?
      ensures accepted <==>
        signed && wallet in old(table) && old(table)[wallet].message == message && deleteAt < old(table)[wallet].expiresAt
      ensures forall w :: w in table <==>
        w in old(table) && old(table)[w].expiresAt > pruneAt && !(accepted && w == wallet)
      ensures forall w | w in table :: table[w] == old(table)[w]
    {
      PruneExpired(pruneAt);
      VerifyAloneSteps(old(table), wallet, message, signed, pruneAt, checkAt, deleteAt);
      var challenge := if wallet in table then Some(table[wallet]) else None;
      if challenge.None? || challenge.value.message != message || challenge.value.expiresAt <= checkAt {
        return false;
      }
      if !signed {
        return false;
      }
      var count := DeleteMany(wallet, message, deleteAt);
      accepted := count == 1;
    }
  }

  /** One verification from beginning to end, as steps of the interleaving. */
  ghost function VerifyAlone(table: Table, w: Wallet, message: string, signed: bool,
                             pruneAt: int, checkAt: int, deleteAt: int): (t: State)
    requires pruneAt <= checkAt <= deleteAt
    ensures 0 in t.verifiers
  {
    var begun := Step(Step(State(pruneAt, table, map[], [], []), Prune(pruneAt)), Begin(0, w, message, signed));
    var checked := Step(Step(Step(begun, Read(0)), Tick(checkAt)), Check(0));
    Step(Step(Step(checked, Tick(deleteAt)), BuildDelete(0)), Delete(0))
  }

  lemma VerifyAloneSteps(table: Table, w: Wallet, message: string, signed: bool, pruneAt: int, checkAt: int, deleteAt: int)
    requires pruneAt <= checkAt <= deleteAt
    ensures
      var t := VerifyAlone(table, w, message, signed, pruneAt, checkAt, deleteAt);
      var pruned := Pruned(table, pruneAt);
      && (t.verifiers[0].Accepted? <==> signed && DeleteMatches(pruned, w, message, deleteAt))
      && (DeleteMatches(pruned, w, message, deleteAt) <==> DeleteMatches(table, w, message, deleteAt))
      && t.table == if t.verifiers[0].Accepted? then pruned - {w} else pruned
  {
  }
}
