/** executeWalletConvert of apps/api/src/users/users-convert.service.ts: the leg loop, the classification of
    its outcome, and the replay of a session that was executed before. */
module Convert {
  import opened Wrappers

  datatype LegStatus = LegPrepared | LegCompleted | LegFailed | LegExpired

  /** A row of WalletConversionLeg, with the transactions prepared for it counted. */
  datatype Leg = Leg(
    id: string, ticker: string, status: LegStatus, preparedHashes: nat, preparedTransactions: nat,
    signature: Option<string>, actualRaOut: real, actualFeeRa: real, errorMessage: Option<string>)

  datatype SessionStatus = Prepared | Completed | PartialSuccess | Failed | Expired

  datatype Session = Session(
    wallet: string, network: string, status: SessionStatus, actualRaOut: real, totalFeeRa: real, totalFeeUsd: real,
    expiresAt: int, completedAt: Option<int>, updatedAt: int, legs: seq<Leg>)

  datatype PayloadStatus = COMPLETED | PARTIAL_SUCCESS | FAILED

  datatype LegPayload = LegPayload(
    legId: string, ticker: string, completed: bool, signature: Option<string>, signatures: seq<string>,
    actualRaOut: real, feeRa: real, errorMessage: Option<string>)

  datatype Payload = Payload(
    status: PayloadStatus, completedLegs: nat, failedLegs: nat, actualRaOut: real, totalFeeRa: real,
    totalFeeUsd: real, legs: seq<LegPayload>, completedAt: int)

  datatype Error =
    | SessionNotFound | NetworkChanged | SessionExpired | DuplicateLeg | ForeignLeg | CountMismatch | ExternalFailure

  /** A submitted leg and the number of signed transactions sent with it. */
  datatype Submission = Submission(legId: string, transactions: nat)

  /** What happened outside while a leg was executed: everything ran; something in the try block threw, with the
      message the user is shown; or a call outside the try block threw, which ends the whole request. */
  datatype Chain =
    | Ran(signatures: seq<string>, before: real, after: real)
    | Threw(signatures: seq<string>, before: real, after: real, message: string)
    | Broke

  /** Outside results, by leg. */
  type World = string -> Chain

  const NOT_SIGNED := "Wallet did not sign this conversion leg."
  const SETTLE_WARNING := "Conversion completed on-chain, but a post-trade confirmation step did not fully settle."

  // ---------- one leg ----------

  function Gain(before: real, after: real): (r: real)
    ensures r >= 0.0
  {
    if after - before > 0.0 then after - before else 0.0
  }

  function FirstOf(signatures: seq<string>): Option<string> {
    if |signatures| > 0 then Some(signatures[0]) else None
  }

  /** How a leg came out: the row to write, the entry of the response, and whether it completed with a warning. */
  datatype LegRun = LegRun(row: Leg, entry: LegPayload, warned: bool)

  function Submitted(submissions: seq<Submission>, legId: string): Option<nat> {
    if |submissions| == 0 then None
    else if submissions[0].legId == legId then Some(submissions[0].transactions)
    else Submitted(submissions[1..], legId)
  }

  function RunLeg(leg: Leg, submitted: Option<nat>, chain: Chain): Result<LegRun, Error> {
    if submitted.None? then
      Success(LegRun(leg.(status := LegFailed, errorMessage := Some(NOT_SIGNED)),
                     LegPayload(leg.id, leg.ticker, false, None, [], 0.0, 0.0, Some(NOT_SIGNED)), false))
    else if leg.preparedHashes == 0 || leg.preparedHashes != submitted.value || leg.preparedTransactions != submitted.value
    then Failure(CountMismatch)
    else
      match chain
      case Broke => Failure(ExternalFailure)
      case Ran(signatures, before, after) =>
        Success(LegRun(leg.(status := LegCompleted, signature := FirstOf(signatures), actualRaOut := Gain(before, after),
                            actualFeeRa := 0.0, errorMessage := None),
                       LegPayload(leg.id, leg.ticker, true, FirstOf(signatures), signatures, Gain(before, after), 0.0, None),
                       false))
      case Threw(signatures, before, after, message) =>
        var out := Gain(before, after);
        var completed := out > 0.0;
        var shown := Some(if completed then SETTLE_WARNING else message);
        Success(LegRun(leg.(status := if completed then LegCompleted else LegFailed, signature := FirstOf(signatures),
                            actualRaOut := out, actualFeeRa := 0.0, errorMessage := shown),
                       LegPayload(leg.id, leg.ticker, completed, FirstOf(signatures), signatures, out, 0.0, shown),
                       completed))
  }

  // ---------- the loop ----------

  /** The local variables of the loop, the rows as they are in the table, and the error that ended it. */
  datatype Progress = Progress(
    legs: seq<Leg>, entries: seq<LegPayload>, actualRaOut: real, totalFeeRa: real, completedLegs: nat,
    warnings: bool, error: Option<Error>)

  /** One iteration on leg k, given how the leg came out. */
  function AfterLeg(p: Progress, k: nat, r: Result<LegRun, Error>): Progress
    requires k < |p.legs|
  {
    if r.Failure? then p.(error := Some(r.error))
    else
      var run := r.value;
      Progress(p.legs[k := run.row], p.entries + [run.entry], p.actualRaOut + run.entry.actualRaOut,
               p.totalFeeRa + run.entry.feeRa, p.completedLegs + (if run.entry.completed then 1 else 0),
               p.warnings || run.warned, None)
  }

  /** The run of leg i on its own. */
  function RunAt(legs: seq<Leg>, submissions: seq<Submission>, world: World, i: nat): Result<LegRun, Error>
    requires i < |legs|
  {
    RunLeg(legs[i], Submitted(submissions, legs[i].id), world(legs[i].id))
  }

  /** The first k iterations; nothing more happens after an error. */
  function AfterLegs(legs: seq<Leg>, submissions: seq<Submission>, world: World, k: nat): (p: Progress)
    requires k <= |legs|
    ensures |p.legs| == |legs|
  {
    if k == 0 then Progress(legs, [], 0.0, 0.0, 0, false, None)
    else
      var p := AfterLegs(legs, submissions, world, k - 1);
      if p.error.Some? then p
      else AfterLeg(p, k - 1, RunAt(legs, submissions, world, k - 1))
  }

  function Count(entries: seq<LegPayload>, completed: bool): nat {
    if |entries| == 0 then 0
    else Count(entries[..|entries| - 1], completed) + if entries[|entries| - 1].completed == completed then 1 else 0
  }

  function Classify(completedLegs: nat, failedLegs: nat, warnings: bool, actualRaOut: real): SessionStatus {
    if completedLegs > 0 && failedLegs == 0 && !warnings then Completed
    else if completedLegs > 0 || actualRaOut > 0.0 then PartialSuccess
    else Failed
  }

  function Shown(status: SessionStatus): PayloadStatus {
    match status
    case Completed => COMPLETED
    case PartialSuccess => PARTIAL_SUCCESS
    case _ => FAILED
  }

  // ---------- the request ----------

  predicate Duplicates(submissions: seq<Submission>) {
    exists i, j | 0 <= i < j < |submissions| :: submissions[i].legId == submissions[j].legId
  }

  predicate AllOpen(legs: seq<Leg>, submissions: seq<Submission>) {
    forall i | 0 <= i < |submissions| :: HasOpen(legs, submissions[i].legId)
  }

  predicate HasOpen(legs: seq<Leg>, legId: string) {
    exists j | 0 <= j < |legs| :: legs[j].id == legId && legs[j].status == LegPrepared
  }

  function ExpireLegs(legs: seq<Leg>): seq<Leg> {
    seq(|legs|, i requires 0 <= i < |legs| =>
      if legs[i].status == LegPrepared
      then legs[i].(status := LegExpired, errorMessage := Some("Conversion session expired before execution."))
      else legs[i])
  }

  function ReplayEntry(leg: Leg): LegPayload {
    LegPayload(leg.id, leg.ticker, leg.status == LegCompleted, leg.signature,
               if leg.signature.Some? && leg.signature.value != "" then [leg.signature.value] else [],
               leg.actualRaOut, leg.actualFeeRa, leg.errorMessage)
  }

  function CountLegs(legs: seq<Leg>, completed: bool): nat {
    if |legs| == 0 then 0
    else CountLegs(legs[..|legs| - 1], completed) + if (legs[|legs| - 1].status == LegCompleted) == completed then 1 else 0
  }

  /** The response built from the stored rows alone. */
  function Replay(s: Session): Payload {
    Payload(Shown(s.status), CountLegs(s.legs, true), CountLegs(s.legs, false), s.actualRaOut, s.totalFeeRa, s.totalFeeUsd,
            seq(|s.legs|, i requires 0 <= i < |s.legs| => ReplayEntry(s.legs[i])),
            if s.completedAt.Some? then s.completedAt.value else s.updatedAt)
  }

  datatype Request = Request(wallet: string, network: string, submissions: seq<Submission>, now: int, completedAt: int)

  function Execute(s: Session, r: Request, world: World): (Session, Result<Payload, Error>) {
    if s.wallet != r.wallet then (s, Failure(SessionNotFound))
    else if s.network != r.network then (s, Failure(NetworkChanged))
    else if s.status != Prepared then (s, Success(Replay(s)))
    else if s.expiresAt <= r.now then
      (s.(status := Expired, completedAt := Some(r.now), legs := ExpireLegs(s.legs)), Failure(SessionExpired))
    else if Duplicates(r.submissions) then (s, Failure(DuplicateLeg))
    else if !AllOpen(s.legs, r.submissions) then (s, Failure(ForeignLeg))
    else
      var p := AfterLegs(s.legs, r.submissions, world, |s.legs|);
      if p.error.Some? then (s.(legs := p.legs), Failure(p.error.value))
      else
        var failedLegs := Count(p.entries, false);
        var status := Classify(p.completedLegs, failedLegs, p.warnings, p.actualRaOut);
        (s.(status := status, actualRaOut := p.actualRaOut, totalFeeRa := p.totalFeeRa, totalFeeUsd := 0.0,
            completedAt := Some(r.completedAt), legs := p.legs),
         Success(Payload(Shown(status), p.completedLegs, failedLegs, p.actualRaOut, p.totalFeeRa, 0.0, p.entries, r.completedAt)))
  }

  // ---------- what the loop adds up ----------

  function TotalOut(entries: seq<LegPayload>): real {
    if |entries| == 0 then 0.0 else TotalOut(entries[..|entries| - 1]) + entries[|entries| - 1].actualRaOut
  }

  /** Up to an error every leg is run on its own row, and no row is touched before its turn. */
  lemma {:induction false} LegsIndependent(legs: seq<Leg>, submissions: seq<Submission>, world: World, k: nat, i: nat)
    requires i < |legs| && k <= |legs|
    ensures
      var p := AfterLegs(legs, submissions, world, k);
      && (p.error.None? ==> |p.entries| == k)
      && (k <= i ==> p.legs[i] == legs[i])
      && (p.error.None? && i < k ==> Recorded(p, i, RunAt(legs, submissions, world, i)))
  {
    if k > 0 {
      LegsIndependent(legs, submissions, world, k - 1, i);
      LegsIndependent(legs, submissions, world, k - 1, k - 1);
    }
  }

  ghost predicate Recorded(p: Progress, i: nat, r: Result<LegRun, Error>)
    requires i < |p.legs| && (p.error.None? ==> i < |p.entries|)
  {
    p.error.None? ==> r.Success? && p.legs[i] == r.value.row && p.entries[i] == r.value.entry
  }

  ghost predicate AddsUp(p: Progress) {
    && p.actualRaOut == TotalOut(p.entries) >= 0.0 && p.totalFeeRa == 0.0
    && p.completedLegs == Count(p.entries, true)
    && Count(p.entries, true) + Count(p.entries, false) == |p.entries|
    && (p.completedLegs == 0 ==> p.actualRaOut == 0.0)
    && (p.warnings <==> exists i :: 0 <= i < |p.entries| && p.entries[i].completed && p.entries[i].errorMessage.Some?)
  }

  /** A leg that did not complete brought nothing in; a warning is a completion with a message. */
  predicate Sound(r: Result<LegRun, Error>) {
    r.Success? ==>
      var e := r.value.entry;
      && e.actualRaOut >= 0.0 && e.feeRa == 0.0 && (!e.completed ==> e.actualRaOut == 0.0)
      && (r.value.warned <==> e.completed && e.errorMessage.Some?)
  }

  lemma RunLegSound(leg: Leg, submitted: Option<nat>, chain: Chain)
    ensures Sound(RunLeg(leg, submitted, chain))
  {
  }

  lemma AfterLegAddsUp(p: Progress, k: nat, r: Result<LegRun, Error>)
    requires k < |p.legs| && AddsUp(p) && Sound(r)
    ensures AddsUp(AfterLeg(p, k, r))
  {
    var q := AfterLeg(p, k, r);
    if r.Success? {
      assert q.entries[..|q.entries| - 1] == p.entries;
      if p.warnings {
        var i :| 0 <= i < |p.entries| && p.entries[i].completed && p.entries[i].errorMessage.Some?;
        assert q.entries[i] == p.entries[i];
      }
      if r.value.warned {
        assert q.entries[|p.entries|].completed && q.entries[|p.entries|].errorMessage.Some?;
      }
    }
  }

  lemma {:induction false} AfterLegsAddUp(legs: seq<Leg>, submissions: seq<Submission>, world: World, k: nat)
    requires k <= |legs|
    ensures AddsUp(AfterLegs(legs, submissions, world, k))
  {
    if k > 0 {
      AfterLegsAddUp(legs, submissions, world, k - 1);
      var p, r := AfterLegs(legs, submissions, world, k - 1), RunAt(legs, submissions, world, k - 1);
      if p.error.None? {
        RunLegSound(legs[k - 1], Submitted(submissions, legs[k - 1].id), world(legs[k - 1].id));
        AfterLegAddsUp(p, k - 1, r);
        assert AfterLegs(legs, submissions, world, k) == AfterLeg(p, k - 1, r);
      }
    }
  }

  /** A request that executes a prepared session. */
  predicate Executes(s: Session, r: Request, world: World) {
    s.status == Prepared && Execute(s, r, world).1.Success?
  }

  lemma ExecutionLengths(s: Session, r: Request, world: World)
    requires Executes(s, r, world)
    ensures |Execute(s, r, world).0.legs| == |Execute(s, r, world).1.value.legs| == |s.legs|
  {
    if |s.legs| > 0 {
      LegsIndependent(s.legs, r.submissions, world, |s.legs|, 0);
    }
  }

  /** The response of an execution: every leg is counted once, as completed or as failed; the amount is the
      sum over the legs; the status is FAILED exactly when no leg completed and COMPLETED exactly when all
      did, without a warning, and there was one. */
  lemma ExecutionAddsUp(s: Session, r: Request, world: World)
    requires Executes(s, r, world)
    ensures
      var p := Execute(s, r, world).1.value;
      && |p.legs| == |s.legs| && p.completedLegs + p.failedLegs == |s.legs|
      && p.actualRaOut == TotalOut(p.legs) && p.totalFeeRa == 0.0 && p.totalFeeUsd == 0.0 && p.completedAt == r.completedAt
      && p.completedLegs == Count(p.legs, true) && p.failedLegs == Count(p.legs, false)
      && (p.status == FAILED <==> p.completedLegs == 0)
      && (p.status == COMPLETED <==>
            p.completedLegs == |s.legs| > 0 && forall i | 0 <= i < |p.legs| && p.legs[i].completed :: p.legs[i].errorMessage.None?)
  {
    AfterLegsAddUp(s.legs, r.submissions, world, |s.legs|);
    ExecutionLengths(s, r, world);
  }

  /** The rows after an execution: the session's has the outcome, every leg's agrees with its entry of the response,
      but for what a leg that was not signed held before, and nothing else in them changes. */
  lemma RowsOutcome(s: Session, r: Request, world: World, i: nat)
    requires Executes(s, r, world) && i < |s.legs|
    ensures
      var (done, answer) := Execute(s, r, world);
      var p := answer.value;
      && |done.legs| == |p.legs| == |s.legs|
      && done == s.(status := done.status, actualRaOut := p.actualRaOut, totalFeeRa := 0.0, totalFeeUsd := 0.0,
                    completedAt := Some(r.completedAt), legs := done.legs)
      && var row, e, leg := done.legs[i], p.legs[i], s.legs[i];
      && row.status == (if e.completed then LegCompleted else LegFailed) && row.errorMessage == e.errorMessage
      && (if Submitted(r.submissions, leg.id).Some? then
            row.signature == e.signature && row.actualRaOut == e.actualRaOut && row.actualFeeRa == 0.0
          else
            row.signature == leg.signature && row.actualRaOut == leg.actualRaOut && row.actualFeeRa == leg.actualFeeRa)
      && row == leg.(status := row.status, signature := row.signature, actualRaOut := row.actualRaOut,
                     actualFeeRa := row.actualFeeRa, errorMessage := row.errorMessage)
  {
    AfterLegsAddUp(s.legs, r.submissions, world, |s.legs|);
    ExecutionLengths(s, r, world);
    LegsIndependent(s.legs, r.submissions, world, |s.legs|, i);
  }

  /** What a leg's outcome means: it completed exactly when everything ran or the balance still rose, the amount
      is by how much it rose, and a leg that was not signed or did not complete says why. */
  lemma LegOutcome(s: Session, r: Request, world: World, i: nat)
    requires Executes(s, r, world) && i < |s.legs|
    ensures
      var entries := Execute(s, r, world).1.value.legs;
      && i < |entries|
      && var e, chain := entries[i], world(s.legs[i].id);
      && e.legId == s.legs[i].id && e.ticker == s.legs[i].ticker
      && (if Submitted(r.submissions, s.legs[i].id).None? then
            !e.completed && e.actualRaOut == 0.0 && e.signatures == [] && e.errorMessage == Some(NOT_SIGNED)
          else
            && !chain.Broke?
            && (e.completed <==> chain.Ran? || chain.after > chain.before)
            && e.actualRaOut == (if chain.after > chain.before then chain.after - chain.before else 0.0)
            && e.signatures == chain.signatures && e.signature == FirstOf(chain.signatures)
            && e.errorMessage == (if chain.Ran? then None
                                  else if chain.after > chain.before then Some(SETTLE_WARNING) else Some(chain.message)))
  {
    ExecutionLengths(s, r, world);
    LegsIndependent(s.legs, r.submissions, world, |s.legs|, i);
  }

  // ---------- when a request executes, and what it answers otherwise ----------

  /** The session is the wallet's, on the same network, prepared, and not expired. */
  predicate Live(s: Session, r: Request) {
    s.wallet == r.wallet && s.network == r.network && s.status == Prepared && r.now < s.expiresAt
  }

  /** No leg is submitted twice. */
  predicate DistinctLegs(submissions: seq<Submission>) {
    forall i, j | 0 <= i < |submissions| && 0 <= j < |submissions| && submissions[i].legId == submissions[j].legId :: i == j
  }

  /** Only prepared legs of the session are submitted. */
  predicate OnlyOpenLegs(s: Session, submissions: seq<Submission>) {
    forall x | x in submissions :: exists leg | leg in s.legs :: leg.id == x.legId && leg.status == LegPrepared
  }

  /** What was submitted for the leg, if anything, has the number of transactions that was prepared. */
  predicate CountsMatch(leg: Leg, submissions: seq<Submission>) {
    forall x | x in submissions && x.legId == leg.id ::
      x.transactions == leg.preparedHashes == leg.preparedTransactions && x.transactions > 0
  }

  predicate IsSubmitted(leg: Leg, submissions: seq<Submission>) {
    exists x | x in submissions :: x.legId == leg.id
  }

  /** Neither the counts nor a call outside the try block end the request at this leg. */
  predicate Passes(leg: Leg, submissions: seq<Submission>, world: World) {
    CountsMatch(leg, submissions) && (IsSubmitted(leg, submissions) ==> !world(leg.id).Broke?)
  }

  lemma {:induction false} SubmittedAs(submissions: seq<Submission>, legId: string)
    requires DistinctLegs(submissions)
    ensures Submitted(submissions, legId).Some? <==> exists x | x in submissions :: x.legId == legId
    ensures forall x | x in submissions && x.legId == legId :: Submitted(submissions, legId) == Some(x.transactions)
  {
    if |submissions| > 0 {
      var rest := submissions[1..];
      assert submissions == [submissions[0]] + rest;
      assert forall i | 0 <= i < |rest| :: rest[i] == submissions[i + 1];
      SubmittedAs(rest, legId);
    }
  }

  lemma LegPasses(leg: Leg, submissions: seq<Submission>, world: World)
    requires DistinctLegs(submissions)
    ensures
      var r := RunLeg(leg, Submitted(submissions, leg.id), world(leg.id));
      && (r.Success? <==> Passes(leg, submissions, world))
      && (r.Failure? ==> r.error == if CountsMatch(leg, submissions) then ExternalFailure else CountMismatch)
  {
    SubmittedAs(submissions, leg.id);
  }

  /** The first leg at which the request ends, if there is one. */
  predicate StopsAt(s: Session, submissions: seq<Submission>, world: World, k: nat) {
    && k < |s.legs| && !Passes(s.legs[k], submissions, world)
    && forall i | 0 <= i < k :: Passes(s.legs[i], submissions, world)
  }

  lemma {:induction false} LegsPass(s: Session, submissions: seq<Submission>, world: World, n: nat)
    requires DistinctLegs(submissions) && n <= |s.legs|
    ensures AfterLegs(s.legs, submissions, world, n).error.None? <==> forall i | 0 <= i < n :: Passes(s.legs[i], submissions, world)
  {
    if n > 0 {
      LegsPass(s, submissions, world, n - 1);
      LegPasses(s.legs[n - 1], submissions, world);
    }
  }

  lemma DuplicatesAgree(submissions: seq<Submission>)
    ensures Duplicates(submissions) <==> !DistinctLegs(submissions)
  {
    if Duplicates(submissions) {
      var i, j :| 0 <= i < j < |submissions| && submissions[i].legId == submissions[j].legId;
      assert submissions[i].legId == submissions[j].legId && i != j;
    }
    if !DistinctLegs(submissions) {
      var i, j :| 0 <= i < |submissions| && 0 <= j < |submissions| && submissions[i].legId == submissions[j].legId && i != j;
      var first, second := if i < j then i else j, if i < j then j else i;
      assert 0 <= first < second < |submissions| && submissions[first].legId == submissions[second].legId;
    }
  }

  lemma ChecksAgree(s: Session, submissions: seq<Submission>)
    ensures Duplicates(submissions) <==> !DistinctLegs(submissions)
    ensures AllOpen(s.legs, submissions) <==> OnlyOpenLegs(s, submissions)
  {
    DuplicatesAgree(submissions);
    forall x | x in submissions
      ensures HasOpen(s.legs, x.legId) <==> exists leg | leg in s.legs :: leg.id == x.legId && leg.status == LegPrepared
    {
      OpenAgrees(s.legs, x.legId);
    }
  }

  lemma OpenAgrees(legs: seq<Leg>, legId: string)
    ensures HasOpen(legs, legId) <==> exists leg | leg in legs :: leg.id == legId && leg.status == LegPrepared
  {
    if HasOpen(legs, legId) {
      var j :| 0 <= j < |legs| && legs[j].id == legId && legs[j].status == LegPrepared;
      assert legs[j] in legs;
    }
  }

  /** A request executes the session exactly when the session is live, the submissions are of different prepared
      legs, and every leg passes. */
  lemma ExecutesIff(s: Session, r: Request, world: World)
    ensures Executes(s, r, world) <==>
      && Live(s, r) && DistinctLegs(r.submissions) && OnlyOpenLegs(s, r.submissions)
      && forall i | 0 <= i < |s.legs| :: Passes(s.legs[i], r.submissions, world)
  {
    ChecksAgree(s, r.submissions);
    if DistinctLegs(r.submissions) {
      LegsPass(s, r.submissions, world, |s.legs|);
    }
  }

  /** The requests that are refused before the first leg, the replays, and the expiry. */
  lemma RefusedOrReplayed(s: Session, r: Request, world: World)
    ensures
      var (done, answer) := Execute(s, r, world);
      && (answer == Failure(SessionNotFound) <==> s.wallet != r.wallet)
      && (answer == Failure(NetworkChanged) <==> s.wallet == r.wallet && s.network != r.network)
      && (answer == Failure(SessionExpired) <==>
            s.wallet == r.wallet && s.network == r.network && s.status == Prepared && s.expiresAt <= r.now)
      && (answer == Failure(DuplicateLeg) <==> Live(s, r) && !DistinctLegs(r.submissions))
      && (answer == Failure(ForeignLeg) <==> Live(s, r) && DistinctLegs(r.submissions) && !OnlyOpenLegs(s, r.submissions))
      && (answer in {Failure(SessionNotFound), Failure(NetworkChanged), Failure(DuplicateLeg), Failure(ForeignLeg)} ==>
            done == s)
      && (s.wallet == r.wallet && s.network == r.network && s.status != Prepared ==> (done, answer) == (s, Success(Replay(s))))
  {
    ChecksAgree(s, r.submissions);
    if Live(s, r) && DistinctLegs(r.submissions) && OnlyOpenLegs(s, r.submissions) {
      AbortedAt(s, r, world);
    }
  }

  /** A request that gets as far as the legs fails exactly if some leg does not pass, with the error of the first
      such leg: the legs before it are as if run alone, the others and the session itself as they were. */
  lemma AbortedAt(s: Session, r: Request, world: World)
    requires Live(s, r) && DistinctLegs(r.submissions) && OnlyOpenLegs(s, r.submissions)
    ensures Execute(s, r, world).1.Failure? <==> exists k: nat :: StopsAt(s, r.submissions, world, k)
    ensures forall k: nat | StopsAt(s, r.submissions, world, k) :: AbortsAt(s, r, world, k)
  {
    ChecksAgree(s, r.submissions);
    LegsPass(s, r.submissions, world, |s.legs|);
    forall k: nat | StopsAt(s, r.submissions, world, k) ensures AbortsAt(s, r, world, k) {
      StopAborts(s, r, world, k);
    }
    if exists i :: 0 <= i < |s.legs| && !Passes(s.legs[i], r.submissions, world) {
      FirstStop(s, r.submissions, world, |s.legs|);
    }
  }

  ghost predicate AbortsAt(s: Session, r: Request, world: World, k: nat)
    requires k < |s.legs|
  {
    var (done, answer) := Execute(s, r, world);
    && answer == Failure(if CountsMatch(s.legs[k], r.submissions) then ExternalFailure else CountMismatch)
    && done == s.(legs := done.legs) && |done.legs| == |s.legs|
    && (forall i | k <= i < |s.legs| :: done.legs[i] == s.legs[i])
    && (forall i | 0 <= i < k :: RanAlone(s, r, world, i, done.legs[i]))
  }

  ghost predicate RanAlone(s: Session, r: Request, world: World, i: nat, row: Leg)
    requires i < |s.legs|
  {
    var alone := RunAt(s.legs, r.submissions, world, i);
    alone.Success? && row == alone.value.row
  }

  lemma {:induction false} FirstStop(s: Session, submissions: seq<Submission>, world: World, n: nat)
    requires n <= |s.legs| && exists i :: 0 <= i < n && !Passes(s.legs[i], submissions, world)
    ensures exists k: nat :: StopsAt(s, submissions, world, k)
  {
    if forall i | 0 <= i < n - 1 :: Passes(s.legs[i], submissions, world) {
      assert StopsAt(s, submissions, world, n - 1);
    } else {
      FirstStop(s, submissions, world, n - 1);
    }
  }

  lemma StopAborts(s: Session, r: Request, world: World, k: nat)
    requires Live(s, r) && DistinctLegs(r.submissions) && OnlyOpenLegs(s, r.submissions)
    requires StopsAt(s, r.submissions, world, k)
    ensures AbortsAt(s, r, world, k)
  {
    ChecksAgree(s, r.submissions);
    LegsPass(s, r.submissions, world, k);
    LegPasses(s.legs[k], r.submissions, world);
    AbortEnds(s.legs, r.submissions, world, k, |s.legs|);
    var p := AfterLegs(s.legs, r.submissions, world, k);
    assert AfterLegs(s.legs, r.submissions, world, |s.legs|).legs == p.legs;
    forall i | 0 <= i < |s.legs| ensures if i < k then RanAlone(s, r, world, i, p.legs[i]) else p.legs[i] == s.legs[i] {
      LegsIndependent(s.legs, r.submissions, world, k, i);
    }
  }

  /** Expiry ends the session and exactly its prepared legs, and keeps everything else; from then on every request
      of the wallet on that network gets the same answer, a failure with the time of the expiry. */
  lemma ExpiryOutcome(s: Session, r: Request, world: World, later: Request, laterWorld: World)
    requires s.wallet == r.wallet && s.network == r.network && s.status == Prepared && s.expiresAt <= r.now
    requires later.wallet == r.wallet && later.network == r.network
    ensures
      var done := Execute(s, r, world).0;
      && done == s.(status := Expired, completedAt := Some(r.now), legs := done.legs) && |done.legs| == |s.legs|
      && (forall i | 0 <= i < |s.legs| ::
            && (s.legs[i].status == LegPrepared ==> done.legs[i].status == LegExpired && done.legs[i].errorMessage.Some?)
            && (s.legs[i].status != LegPrepared ==> done.legs[i] == s.legs[i])
            && done.legs[i].(status := s.legs[i].status, errorMessage := s.legs[i].errorMessage) == s.legs[i])
      && Execute(done, later, laterWorld).0 == done
      && Execute(done, later, laterWorld).1.Success?
      && Execute(done, later, laterWorld).1.value.status == FAILED
      && Execute(done, later, laterWorld).1.value.completedAt == r.now
  {
  }

  // ---------- replay ----------

  lemma {:induction false} CountLegsAll(legs: seq<Leg>)
    ensures CountLegs(legs, true) + CountLegs(legs, false) == |legs|
    ensures CountLegs(legs, true) == 0 <==> forall leg | leg in legs :: leg.status != LegCompleted
  {
    if |legs| > 0 {
      CountLegsAll(legs[..|legs| - 1]);
      assert legs == legs[..|legs| - 1] + [legs[|legs| - 1]];
    }
  }

  /** A replay is COMPLETED or PARTIAL_SUCCESS exactly for a session stored as that, counts every leg once, and is
      dated by the session's completion, or by its last update if it never completed. */
  lemma ReplayReads(s: Session)
    ensures
      var p := Replay(s);
      && (p.status == COMPLETED <==> s.status == Completed) && (p.status == PARTIAL_SUCCESS <==> s.status == PartialSuccess)
      && p.completedLegs + p.failedLegs == |s.legs| == |p.legs|
      && (p.completedLegs == 0 <==> forall i | 0 <= i < |p.legs| :: !p.legs[i].completed)
      && (s.completedAt.Some? ==> p.completedAt == s.completedAt.value)
      && (s.completedAt.None? ==> p.completedAt == s.updatedAt)
  {
    CountLegsAll(s.legs);
    forall i | 0 <= i < |s.legs| ensures Replay(s).legs[i].completed <==> s.legs[i].status == LegCompleted {
    }
  }

  /** What a replay can tell of an entry: of several signatures only the first is stored. */
  function Brief(e: LegPayload): LegPayload {
    e.(signatures := if e.signature.Some? && e.signature.value != "" then [e.signature.value] else [])
  }

  /** Nothing is left in the row from an earlier request. */
  predicate Clean(leg: Leg) {
    leg.signature.None? && leg.actualRaOut == 0.0 && leg.actualFeeRa == 0.0
  }

  lemma ReplayOfLeg(leg: Leg, submitted: Option<nat>, chain: Chain)
    requires RunLeg(leg, submitted, chain).Success?
    ensures
      var run := RunLeg(leg, submitted, chain).value;
      && (ReplayEntry(run.row) == Brief(run.entry) <==> submitted.Some? || Clean(leg))
      && ReplayEntry(run.row).completed == run.entry.completed
      && ReplayEntry(run.row).errorMessage == run.entry.errorMessage
      && ReplayEntry(run.row).legId == run.entry.legId && ReplayEntry(run.row).ticker == run.entry.ticker
      && (run.row.status == LegCompleted <==> run.entry.completed)
  {
  }

  lemma {:induction false} CountsAgree(rows: seq<Leg>, entries: seq<LegPayload>, completed: bool)
    requires |rows| == |entries|
    requires forall i | 0 <= i < |rows| :: rows[i].status == LegCompleted <==> entries[i].completed
    ensures CountLegs(rows, completed) == Count(entries, completed)
  {
    if |rows| > 0 {
      CountsAgree(rows[..|rows| - 1], entries[..|rows| - 1], completed);
    }
  }

  /** The legs the wallet did not sign hold nothing from an earlier request. */
  predicate UnsignedClean(s: Session, r: Request) {
    forall i | 0 <= i < |s.legs| :: Submitted(r.submissions, s.legs[i].id).Some? || Clean(s.legs[i])
  }

  function Briefly(p: Payload): Payload {
    p.(legs := seq(|p.legs|, i requires 0 <= i < |p.legs| => Brief(p.legs[i])))
  }

  lemma ReplayOfLegAt(s: Session, r: Request, world: World, i: nat)
    requires Executes(s, r, world) && i < |s.legs|
    requires |Execute(s, r, world).0.legs| == |Execute(s, r, world).1.value.legs| == |s.legs|
    ensures
      var done := Execute(s, r, world);
      var replay, first := Replay(done.0), done.1.value;
      && (replay.legs[i] == Brief(first.legs[i]) <==> Submitted(r.submissions, s.legs[i].id).Some? || Clean(s.legs[i]))
      && replay.legs[i].completed == first.legs[i].completed
      && replay.legs[i].errorMessage == first.legs[i].errorMessage
      && (done.0.legs[i].status == LegCompleted <==> first.legs[i].completed)
  {
    LegsIndependent(s.legs, r.submissions, world, |s.legs|, i);
    ReplayOfLeg(s.legs[i], Submitted(r.submissions, s.legs[i].id), world(s.legs[i].id));
  }

  /** Replaying an executed session gives the status, counts, totals, completion time, per-leg statuses and
      error messages of the first response. */
  lemma ReplayKeepsOutcome(s: Session, r: Request, world: World)
    requires Executes(s, r, world)
    ensures
      var done := Execute(s, r, world);
      var replay, first := Replay(done.0), done.1.value;
      && replay.(legs := first.legs) == first
      && |replay.legs| == |first.legs|
      && forall i | 0 <= i < |first.legs| ::
           replay.legs[i].completed == first.legs[i].completed && replay.legs[i].errorMessage == first.legs[i].errorMessage
  {
    AfterLegsAddUp(s.legs, r.submissions, world, |s.legs|);
    var done := Execute(s, r, world);
    var rows, entries := done.0.legs, done.1.value.legs;
    ExecutionLengths(s, r, world);
    forall i | 0 <= i < |s.legs|
      ensures (rows[i].status == LegCompleted <==> entries[i].completed)
      ensures Replay(done.0).legs[i].completed == entries[i].completed
      ensures Replay(done.0).legs[i].errorMessage == entries[i].errorMessage
    {
      ReplayOfLegAt(s, r, world, i);
    }
    CountsAgree(rows, entries, true);
    CountsAgree(rows, entries, false);
  }

  /** It gives the amounts and signatures too, as far as they are stored, exactly when every leg the wallet
      did not sign was clean: an unsigned leg is reported as empty but its row keeps what it held. */
  lemma ReplayAgrees(s: Session, r: Request, world: World)
    requires Executes(s, r, world)
    ensures Replay(Execute(s, r, world).0) == Briefly(Execute(s, r, world).1.value) <==> UnsignedClean(s, r)
  {
    ReplayKeepsOutcome(s, r, world);
    ExecutionLengths(s, r, world);
    var done := Execute(s, r, world);
    var replay, first := Replay(done.0), Briefly(done.1.value);
    forall i | 0 <= i < |s.legs|
      ensures replay.legs[i] == first.legs[i] <==> Submitted(r.submissions, s.legs[i].id).Some? || Clean(s.legs[i])
    {
      ReplayOfLegAt(s, r, world, i);
    }
    if UnsignedClean(s, r) {
      assert replay.legs == first.legs;
    }
  }

  /** Later requests of the same wallet on the same network replay: they answer alike and change nothing,
      whatever they submit. */
  lemma ReplayChangesNothing(s: Session, r: Request, world: World, later: Request, laterWorld: World)
    requires Executes(s, r, world) && later.wallet == s.wallet && later.network == s.network
    ensures
      var done := Execute(s, r, world).0;
      Execute(done, later, laterWorld) == (done, Success(Replay(done)))
  {
  }

  // ---------- after an aborted request ----------

  /** A session as prepareWalletConvert stores it. */
  predicate JustPrepared(s: Session) {
    && s.status == Prepared
    && forall i | 0 <= i < |s.legs| :: s.legs[i].status == LegPrepared && Clean(s.legs[i])
  }

  /** When the first request on a prepared session executes it, replays agree with its response. */
  lemma FirstRequestReplays(s: Session, r: Request, world: World)
    requires JustPrepared(s) && Executes(s, r, world)
    ensures Replay(Execute(s, r, world).0) == Briefly(Execute(s, r, world).1.value)
  {
    ReplayAgrees(s, r, world);
  }

  ghost predicate IdsDistinct(legs: seq<Leg>) {
    forall i, j | 0 <= i < j < |legs| :: legs[i].id != legs[j].id
  }

  lemma {:induction false} SubmittedIsListed(submissions: seq<Submission>, legId: string)
    ensures Submitted(submissions, legId).Some? ==> exists i :: 0 <= i < |submissions| && submissions[i].legId == legId
  {
    if |submissions| > 0 && submissions[0].legId != legId {
      SubmittedIsListed(submissions[1..], legId);
      if Submitted(submissions[1..], legId).Some? {
        var i :| 0 <= i < |submissions[1..]| && submissions[1..][i].legId == legId;
        assert submissions[i + 1].legId == legId;
      }
    }
  }

  /** Only legs that are still open can be submitted. */
  lemma ClosedLegNotSubmitted(legs: seq<Leg>, submissions: seq<Submission>, i: nat)
    requires IdsDistinct(legs) && AllOpen(legs, submissions) && i < |legs| && legs[i].status != LegPrepared
    ensures Submitted(submissions, legs[i].id).None?
  {
    SubmittedIsListed(submissions, legs[i].id);
    forall k | 0 <= k < |submissions| ensures submissions[k].legId != legs[i].id {
      var j :| 0 <= j < |legs| && legs[j].id == submissions[k].legId && legs[j].status == LegPrepared;
      assert i < j || j < i;
    }
  }

  /** A leg that completed in a request that was aborted later can not be submitted again: the request that
      executes the session reports it as failed, without its amount, and marks its row as failed while the
      amount and the signature stay in it. */
  lemma CompletedLegReportedFailed(s: Session, r: Request, world: World, i: nat)
    requires Executes(s, r, world) && IdsDistinct(s.legs) && i < |s.legs| && s.legs[i].status == LegCompleted
    ensures
      var done := Execute(s, r, world);
      && |done.0.legs| == |done.1.value.legs| == |s.legs|
      && !done.1.value.legs[i].completed && done.1.value.legs[i].actualRaOut == 0.0
      && done.0.legs[i] == s.legs[i].(status := LegFailed, errorMessage := Some(NOT_SIGNED))
  {
    ExecutionLengths(s, r, world);
    LegsIndependent(s.legs, r.submissions, world, |s.legs|, i);
    ClosedLegNotSubmitted(s.legs, r.submissions, i);
  }

  /** A leg whose transactions were submitted in full and ran. */
  predicate RunsFully(leg: Leg, transactions: nat, world: World) {
    transactions == leg.preparedHashes == leg.preparedTransactions > 0 && world(leg.id).Ran?
  }

  lemma TwoLegRun(a: Leg, b: Leg, submissions: seq<Submission>, world: World)
    ensures
      var first := AfterLeg(Progress([a, b], [], 0.0, 0.0, 0, false, None), 0, RunLeg(a, Submitted(submissions, a.id), world(a.id)));
      AfterLegs([a, b], submissions, world, 2)
      == if first.error.Some? then first else AfterLeg(first, 1, RunLeg(b, Submitted(submissions, b.id), world(b.id)))
  {
    var legs := [a, b];
    assert AfterLegs(legs, submissions, world, 0) == Progress(legs, [], 0.0, 0.0, 0, false, None);
    assert RunAt(legs, submissions, world, 0) == RunLeg(a, Submitted(submissions, a.id), world(a.id));
    assert RunAt(legs, submissions, world, 1) == RunLeg(b, Submitted(submissions, b.id), world(b.id));
  }

  /** The first request runs leg a and is aborted at leg b, which came with the wrong number of transactions. */
  lemma FirstRequestAborts(s: Session, r: Request, world: World, a: Leg, b: Leg, n: nat)
    requires JustPrepared(s) && s.legs == [a, b] && a.id != b.id
    requires r.wallet == s.wallet && r.network == s.network && r.now < s.expiresAt
    requires r.submissions == [Submission(a.id, a.preparedTransactions), Submission(b.id, n)]
    requires RunsFully(a, a.preparedTransactions, world) && n != b.preparedTransactions
    ensures Execute(s, r, world)
            == (s.(legs := [RunLeg(a, Some(a.preparedTransactions), world(a.id)).value.row, b]), Failure(CountMismatch))
  {
    TwoLegRun(a, b, r.submissions, world);
    assert r.submissions[1..] == [Submission(b.id, n)];
    assert s.legs[0] == a && s.legs[1] == b;
    var row := RunLeg(a, Some(a.preparedTransactions), world(a.id)).value.row;
    assert [a, b][0 := row] == [row, b];
    assert AllOpen(s.legs, r.submissions);
  }

  /** Sent again with leg b alone, the session is executed with the gain of b only. */
  lemma RetryExecutes(s: Session, r: Request, world: World, a: Leg, b: Leg)
    requires s.status == Prepared && s.legs == [a, b] && a.id != b.id && b.status == LegPrepared
    requires r.wallet == s.wallet && r.network == s.network && r.now < s.expiresAt
    requires r.submissions == [Submission(b.id, b.preparedTransactions)] && RunsFully(b, b.preparedTransactions, world)
    ensures Executes(s, r, world)
    ensures Execute(s, r, world).1.value.actualRaOut == Gain(world(b.id).before, world(b.id).after)
    ensures Submitted(r.submissions, a.id).None?
  {
    TwoLegRun(a, b, r.submissions, world);
    assert r.submissions[1..] == [];
    assert s.legs[1] == b;
    assert AllOpen(s.legs, r.submissions);
  }

  /** From a prepared session: the first of two legs runs and the request is then aborted; the retry executes
      the session, counts only the second leg, and its replay disagrees with its response. */
  lemma AbortThenReplayDisagrees(s: Session, r: Request, retry: Request, world: World, a: Leg, b: Leg, n: nat)
    requires JustPrepared(s) && s.legs == [a, b] && a.id != b.id
    requires r.wallet == s.wallet && r.network == s.network && r.now < s.expiresAt
    requires r.submissions == [Submission(a.id, a.preparedTransactions), Submission(b.id, n)]
    requires RunsFully(a, a.preparedTransactions, world) && n != b.preparedTransactions
    requires Gain(world(a.id).before, world(a.id).after) > 0.0
    requires retry.wallet == s.wallet && retry.network == s.network && retry.now < s.expiresAt
    requires retry.submissions == [Submission(b.id, b.preparedTransactions)] && RunsFully(b, b.preparedTransactions, world)
    ensures Execute(s, r, world).1 == Failure(CountMismatch)
    ensures
      var mid := Execute(s, r, world).0;
      && Executes(mid, retry, world)
      && Execute(mid, retry, world).1.value.actualRaOut == Gain(world(b.id).before, world(b.id).after)
      && Replay(Execute(mid, retry, world).0) != Briefly(Execute(mid, retry, world).1.value)
  {
    FirstRequestAborts(s, r, world, a, b, n);
    var mid := Execute(s, r, world).0;
    var ran := mid.legs[0];
    RetryExecutes(mid, retry, world, ran, b);
    DisagreesWhenDirty(mid, retry, world, 0);
  }

  lemma DisagreesWhenDirty(s: Session, r: Request, world: World, i: nat)
    requires Executes(s, r, world) && i < |s.legs| && Submitted(r.submissions, s.legs[i].id).None? && !Clean(s.legs[i])
    ensures Replay(Execute(s, r, world).0) != Briefly(Execute(s, r, world).1.value)
  {
    ReplayAgrees(s, r, world);
  }

  /** The same with values: 5 RA of leg a and 1 RA of leg b. */
  lemma AbortExample(world: World)
    requires world("a") == Ran(["x"], 0.0, 5.0) && world("b") == Ran(["y"], 5.0, 6.0)
    ensures
      var a := Leg("a", "A", LegPrepared, 1, 1, None, 0.0, 0.0, None);
      var s := Session("w", "mainnet", Prepared, 0.0, 0.0, 0.0, 10, None, 0, [a, a.(id := "b", ticker := "B")]);
      var mid := Execute(s, Request("w", "mainnet", [Submission("a", 1), Submission("b", 2)], 0, 0), world).0;
      var retry := Request("w", "mainnet", [Submission("b", 1)], 1, 1);
      && Executes(mid, retry, world) && Execute(mid, retry, world).1.value.actualRaOut == 1.0
      && Replay(Execute(mid, retry, world).0) != Briefly(Execute(mid, retry, world).1.value)
  {
    var a := Leg("a", "A", LegPrepared, 1, 1, None, 0.0, 0.0, None);
    var b := a.(id := "b", ticker := "B");
    var s := Session("w", "mainnet", Prepared, 0.0, 0.0, 0.0, 10, None, 0, [a, b]);
    assert "a"[0] != "b"[0];
    AbortThenReplayDisagrees(s, Request("w", "mainnet", [Submission("a", 1), Submission("b", 2)], 0, 0),
                             Request("w", "mainnet", [Submission("b", 1)], 1, 1), world, a, b, 2);
  }

  // ---------- the service ----------

  /** The session's row and its legs' rows, written as the loop goes. */
  class Store {
    var session: Session

    constructor (s: Session)
      ensures session == s
    {
      session := s;
    }

    method WriteLeg(k: nat, row: Leg)
      requires k < |session.legs|
      modifies this
      ensures session == old(session).(legs := old(session).legs[k := row])
    {
      session := session.(legs := session.legs[k := row]);
    }

    method ExecuteWalletConvert(r: Request, world: World) returns (response: Result<Payload, Error>)
      modifies this
      ensures (session, response) == Execute(old(session), r, world)
      ensures response == Failure(SessionNotFound) <==> old(session).wallet != r.wallet
      ensures response == Failure(NetworkChanged) <==> old(session).wallet == r.wallet && old(session).network != r.network
      ensures response == Failure(SessionExpired) <==>
        && old(session).wallet == r.wallet && old(session).network == r.network
        && old(session).status == Prepared && old(session).expiresAt <= r.now
      ensures response == Failure(SessionExpired) ==> session.status == Expired && session.completedAt == Some(r.now)
      ensures old(session).status == Prepared && response.Success? ==> Live(old(session), r)
    {
      RefusedOrReplayed(session, r, world);
      if session.wallet != r.wallet {
        return Failure(SessionNotFound);
      }
      if session.network != r.network {
        return Failure(NetworkChanged);
      }
      if session.status != Prepared {
        return Success(Replay(session));
      }
      if session.expiresAt <= r.now {
        session := session.(status := Expired, completedAt := Some(r.now));
        session := session.(legs := ExpireLegs(session.legs));
        return Failure(SessionExpired);
      }
      if Duplicates(r.submissions) {
        return Failure(DuplicateLeg);
      }
      if !AllOpen(session.legs, r.submissions) {
        return Failure(ForeignLeg);
      }
      response := RunLegs(r, world);
    }

    /** The loop over the legs and the update of the session. */
    method RunLegs(r: Request, world: World) returns (response: Result<Payload, Error>)
      requires session.wallet == r.wallet && session.network == r.network && session.status == Prepared
      requires session.expiresAt > r.now && !Duplicates(r.submissions) && AllOpen(session.legs, r.submissions)
      modifies this
      ensures (session, response) == Execute(old(session), r, world)
    {
      var p := LegLoop(r.submissions, world);
      if p.error.Some? {
        return Failure(p.error.value);
      }
      var failedLegs := CountFailed(p.entries);
      var status := Classify(p.completedLegs, failedLegs, p.warnings, p.actualRaOut);
      session := session.(status := status, actualRaOut := p.actualRaOut, totalFeeRa := p.totalFeeRa, totalFeeUsd := 0.0,
                          completedAt := Some(r.completedAt));
      return Success(Payload(Shown(status), p.completedLegs, failedLegs, p.actualRaOut, p.totalFeeRa, 0.0, p.entries,
                             r.completedAt));
    }

    method LegLoop(submissions: seq<Submission>, world: World) returns (p: Progress)
      modifies this
      ensures p == AfterLegs(old(session).legs, submissions, world, |old(session).legs|)
      ensures session == old(session).(legs := p.legs)
    {
      var legs := session.legs;
      p := Progress(legs, [], 0.0, 0.0, 0, false, None);
      var k := 0;
      while k < |legs|
        invariant 0 <= k <= |legs| && |p.legs| == |legs| && p.error.None?
        invariant session == old(session).(legs := p.legs)
        invariant p == AfterLegs(legs, submissions, world, k)
      {
        LegsIndependent(legs, submissions, world, k, k);
        var outcome := RunLeg(legs[k], Submitted(submissions, legs[k].id), world(legs[k].id));
        p := OneLeg(p, k, outcome);
        if p.error.Some? {
          AbortEnds(legs, submissions, world, k, |legs|);
          return;
        }
        k := k + 1;
      }
    }

    /** The body of the loop: the row is written, then the running totals are brought up to date. */
    method OneLeg(before: Progress, k: nat, outcome: Result<LegRun, Error>) returns (p: Progress)
      requires k < |before.legs| && session.legs == before.legs && before.error.None?
      modifies this
      ensures p == AfterLeg(before, k, outcome)
      ensures session == old(session).(legs := p.legs)
    {
      p := before;
      if outcome.Failure? {
        return p.(error := Some(outcome.error));
      }
      var run := outcome.value;
      WriteLeg(k, run.row);
      p := p.(legs := session.legs);
      p := p.(actualRaOut := p.actualRaOut + run.entry.actualRaOut);
      p := p.(totalFeeRa := p.totalFeeRa + run.entry.feeRa);
      if run.entry.completed {
        p := p.(completedLegs := p.completedLegs + 1);
      }
      if run.warned {
        p := p.(warnings := true);
      }
      p := p.(entries := p.entries + [run.entry]);
    }
  }

  /** Counts the entries of legs that did not complete. */
  method CountFailed(entries: seq<LegPayload>) returns (n: nat)
    ensures n == Count(entries, false)
  {
    n := 0;
    var i := 0;
    while i < |entries|
      invariant 0 <= i <= |entries| && n == Count(entries[..i], false)
    {
      assert entries[..i + 1][..i] == entries[..i];
      if !entries[i].completed {
        n := n + 1;
      }
      i := i + 1;
    }
    assert entries[..|entries|] == entries;
  }

  /** After the leg that throws, the rows stay as they are. */
  lemma {:induction false} AbortEnds(legs: seq<Leg>, submissions: seq<Submission>, world: World, k: nat, n: nat)
    requires k < n <= |legs| && AfterLegs(legs, submissions, world, k).error.None?
    requires RunAt(legs, submissions, world, k).Failure?
    ensures AfterLegs(legs, submissions, world, n)
            == AfterLegs(legs, submissions, world, k).(error := Some(RunAt(legs, submissions, world, k).error))
  {
    if k + 1 < n {
      AbortEnds(legs, submissions, world, k, n - 1);
    }
  }
}
