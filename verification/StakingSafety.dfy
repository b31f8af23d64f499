/** What every run of the staking and funding programs keeps. */
module StakingSafety {
  import opened Sums
  import opened Wrappers
  import opened StakingPrograms

  // ---------- every reachable state ----------

  ghost predicate GoodPosition(k: PositionKey, p: StakePosition) {
    && p.owner == k.owner && p.owner.Wallet? && p.sessionSeed == k.sessionSeed
    && p.globalConfig == PoolConfigPda && p.tokenConfig == p.inputMint
    && p.principalRaMicros + p.rewardRaMicros == p.finalRaPayoutMicros <= U64_MAX
    && p.startedAt < p.unlockAt
    && (p.status == Active || p.status == Claimed)
    && (p.status == Active ==> p.claimedAt == 0)
    && (p.status == Claimed ==> p.unlockAt <= p.claimedAt)
  }

  ghost predicate GoodBatch(k: BatchKey, b: FundingBatch) {
    && b.inputMint == k.inputMint && b.batchSeed == k.batchSeed
    && b.plannedRewardAmountRaw <= b.approvedInputAmountRaw
    && (b.status == Executed ==> 0 < b.fundedRewardAmountRaw <= b.approvedInputAmountRaw)
    && (b.status != Executed ==> b.fundedRewardAmountRaw == 0 && b.executedAt == 0)
    && (b.status != Cancelled ==> b.cancelledAt == 0)
  }

  ghost predicate GoodToken(m: MintId, c: TokenStakeConfig) {
    c.tokenMint == m && c.globalConfig == PoolConfigPda && |c.aprBps| == 5
  }

  ghost predicate GoodConfigs(s: State) {
    && (s.pool.Some? ==> !s.pool.value.paused)
    && (s.swap.Some? ==> !s.swap.value.paused)
    && (forall m | m in s.tokenConfigs :: GoodToken(m, s.tokenConfigs[m]))
  }

  ghost predicate GoodPositions(s: State) {
    forall k | k in s.positions :: GoodPosition(k, s.positions[k])
  }

  ghost predicate GoodBatches(s: State) {
    forall k | k in s.batches :: GoodBatch(k, s.batches[k])
  }

  ghost predicate StateInv(s: State) {
    GoodConfigs(s) && GoodPositions(s) && GoodBatches(s)
  }

  lemma StepKeepsConfigs(s: State, tx: Transaction)
    requires GoodConfigs(s)
    ensures GoodConfigs(Step(s, tx))
  {
  }

  lemma StepKeepsPositions(s: State, tx: Transaction)
    requires StateInv(s)
    ensures GoodPositions(Step(s, tx))
  {
  }

  lemma StepKeepsBatches(s: State, tx: Transaction)
    requires GoodBatches(s)
    ensures GoodBatches(Step(s, tx))
  {
  }

  lemma {:induction false} ReachableInv(s: State, txs: seq<Transaction>)
    requires Genesis(s)
    ensures StateInv(Run(s, txs))
  {
    if |txs| > 0 {
      ReachableInv(s, txs[..|txs| - 1]);
      var mid, tx := Run(s, txs[..|txs| - 1]), txs[|txs| - 1];
      StepKeepsConfigs(mid, tx);
      StepKeepsPositions(mid, tx);
      StepKeepsBatches(mid, tx);
    }
  }

  lemma CreateNeverFailsWith(s: State, acc: CreateAccounts, args: CreateArgs)
    requires StateInv(s)
    ensures CreateChecks(s, acc, args) !in {Some(ProgramPaused), Some(InvalidGlobalConfig), Some(InvalidInputMint)}
  {
  }

  lemma ClaimNeverFailsWith(s: State, acc: ClaimAccounts, args: ClaimArgs)
    requires StateInv(s)
    ensures ClaimChecks(s, acc, args) !in {Some(UnauthorizedOwner), Some(InvalidGlobalConfig)}
  {
  }

  lemma FundingNeverFailsWith(s: State, approve: ApproveArgs, acc: ExecuteAccounts, funded: u64)
    requires StateInv(s)
    ensures ApproveFundingBatch(s, approve) != Failure(ProgramPaused)
    ensures ExecuteChecks(s, acc, funded) != Some(ProgramPaused)
  {
  }

  /** No instruction ever sets a pause flag, and the stored keys always match their addresses: in every
      reachable state these checks of the two programs cannot fail. */
  lemma DeadChecks(s: State, txs: seq<Transaction>, create: CreateAccounts, createArgs: CreateArgs,
                   claim: ClaimAccounts, claimArgs: ClaimArgs, approve: ApproveArgs, execute: ExecuteAccounts, funded: u64)
    requires Genesis(s)
    ensures CreateChecks(Run(s, txs), create, createArgs)
            !in {Some(ProgramPaused), Some(InvalidGlobalConfig), Some(InvalidInputMint)}
    ensures ClaimChecks(Run(s, txs), claim, claimArgs) !in {Some(UnauthorizedOwner), Some(InvalidGlobalConfig)}
    ensures ApproveFundingBatch(Run(s, txs), approve) != Failure(ProgramPaused)
    ensures ExecuteChecks(Run(s, txs), execute, funded) != Some(ProgramPaused)
  {
    ReachableInv(s, txs);
    CreateNeverFailsWith(Run(s, txs), create, createArgs);
    ClaimNeverFailsWith(Run(s, txs), claim, claimArgs);
    FundingNeverFailsWith(Run(s, txs), approve, execute, funded);
  }

  // ---------- what may change ----------

  ghost predicate PositionEvolves(p: StakePosition, q: StakePosition) {
    q == p || (p.status == Active && q == p.(status := Claimed, claimedAt := q.claimedAt))
  }

  ghost predicate BatchEvolves(b: FundingBatch, c: FundingBatch) {
    || c == b
    || (b.status == Approved && c == b.(status := Executed, fundedRewardAmountRaw := c.fundedRewardAmountRaw,
                                        executedAt := c.executedAt))
    || (b.status == Approved && c == b.(status := Cancelled, cancelledAt := c.cancelledAt))
  }

  ghost predicate PositionsEvolve(s: State, t: State) {
    forall k | k in s.positions :: k in t.positions && PositionEvolves(s.positions[k], t.positions[k])
  }

  ghost predicate BatchesEvolve(s: State, t: State) {
    forall k | k in s.batches :: k in t.batches && BatchEvolves(s.batches[k], t.batches[k])
  }

  ghost predicate AccountsEvolve(s: State, t: State) {
    forall a | a in s.ledger :: a in t.ledger && t.ledger[a].owner == s.ledger[a].owner && t.ledger[a].mint == s.ledger[a].mint
  }

  lemma StepEvolvesPositions(s: State, tx: Transaction)
    ensures PositionsEvolve(s, Step(s, tx))
  {
  }

  lemma StepEvolvesBatches(s: State, tx: Transaction)
    ensures BatchesEvolve(s, Step(s, tx))
  {
  }

  lemma StepEvolvesAccounts(s: State, tx: Transaction)
    ensures AccountsEvolve(s, Step(s, tx))
  {
    StepMoves(s, tx);
  }

  /** Along any run: a position keeps every field of its creation and only ever moves Active to Claimed;
      a batch leaves Approved at most once, and Executed and Cancelled are final; an account keeps its
      owner and mint. */
  lemma {:induction false} RunEvolves(s: State, txs: seq<Transaction>)
    ensures PositionsEvolve(s, Run(s, txs)) && BatchesEvolve(s, Run(s, txs)) && AccountsEvolve(s, Run(s, txs))
  {
    if |txs| > 0 {
      RunEvolves(s, txs[..|txs| - 1]);
      StepEvolvesPositions(Run(s, txs[..|txs| - 1]), txs[|txs| - 1]);
      StepEvolvesBatches(Run(s, txs[..|txs| - 1]), txs[|txs| - 1]);
      StepEvolvesAccounts(Run(s, txs[..|txs| - 1]), txs[|txs| - 1]);
    }
  }

  // ---------- conservation ----------

  /** The move of tokens a successful transaction makes, if it makes one. */
  datatype Move = NoMove | Move(from: Address, mint: MintId, to: Address, signer: Owner, amount: u64, decimals: u8)

  function MoveOf(s: State, tx: Transaction): Move {
    if Process(s, tx).Failure? then NoMove else
    match tx
    case TxCreate(acc, args) =>
      Move(acc.userInputAta, acc.inputMint, acc.swapNodeVault, acc.owner, args.inputAmountRaw, args.inputTokenDecimals)
    case TxClaim(acc, args) =>
      Move(acc.rewardVault, acc.raMint, acc.userRewardAta, PoolConfigPda, args.netPayoutRaMicros, s.mints[acc.raMint])
    case TxExecute(acc, funded) =>
      Move(acc.fundingSourceAta, acc.inputMint, acc.rewardVault, acc.authority, funded, s.mints[acc.inputMint])
    case TxTransfer(signer, from, mint, to, amount, decimals) => Move(from, mint, to, signer, amount, decimals)
    case _ => NoMove
  }

  /** A step moves tokens as its instruction says, opens an empty account, or leaves every account alone. */
  lemma StepMoves(s: State, tx: Transaction)
    ensures
      var move := MoveOf(s, tx);
      if move.Move? then
        TransferChecked(s.ledger, s.mints, move.from, move.mint, move.to, move.signer, move.amount, move.decimals)
        == Success(Step(s, tx).ledger)
      else
        || Step(s, tx).ledger == s.ledger
        || (tx.TxOpenAccount? && tx.address !in s.ledger
            && Step(s, tx).ledger == s.ledger[tx.address := TokenAccount(tx.accountOwner, tx.accountMint, 0)])
  {
  }

  lemma StepConserves(s: State, tx: Transaction, m: MintId)
    ensures Supply(Step(s, tx).ledger, m) == Supply(s.ledger, m)
  {
    StepMoves(s, tx);
    var move := MoveOf(s, tx);
    if move.Move? {
      TransferConserves(s.ledger, s.mints, move.from, move.mint, move.to, move.signer, move.amount, move.decimals, m);
    } else if Step(s, tx).ledger != s.ledger {
      OpeningConserves(s.ledger, tx.address, tx.accountOwner, tx.accountMint, m);
    }
  }

  lemma OpeningConserves(ledger: TokenLedger, address: Address, owner: Owner, mint: MintId, m: MintId)
    requires address !in ledger
    ensures Supply(ledger[address := TokenAccount(owner, mint, 0)], m) == Supply(ledger, m)
  {
    var b: map<Address, int> := Balances(ledger, m);
    var after := ledger[address := TokenAccount(owner, mint, 0)];
    if mint == m {
      SumUpdate<Address>(b, address, 0);
      assert Balances(after, m) == b[address := 0];
    } else {
      assert Balances(after, m) == b;
    }
  }

  /** Tokens are conserved per mint. */
  lemma {:induction false} TokensConserved(s: State, txs: seq<Transaction>, m: MintId)
    ensures Supply(Run(s, txs).ledger, m) == Supply(s.ledger, m)
  {
    if |txs| > 0 {
      TokensConserved(s, txs[..|txs| - 1], m);
      StepConserves(Run(s, txs[..|txs| - 1]), txs[|txs| - 1], m);
    }
  }

  // ---------- pay once ----------

  datatype Payout = Payout(key: PositionKey, vault: Address, net: u64)

  /** The settlement a transaction makes, if it is a claim that succeeds. */
  function PayoutOf(s: State, tx: Transaction): seq<Payout> {
    if tx.TxClaim? && Process(s, tx).Success?
    then [Payout(PositionKey(tx.claim.owner, tx.claim.sessionSeed), tx.claim.rewardVault, tx.claimArgs.netPayoutRaMicros)]
    else []
  }

  /** All settlements of a run, in order. */
  ghost function Payouts(s: State, txs: seq<Transaction>): seq<Payout> {
    if |txs| == 0 then []
    else Payouts(s, txs[..|txs| - 1]) + PayoutOf(Run(s, txs[..|txs| - 1]), txs[|txs| - 1])
  }

  function NetTotal(ps: seq<Payout>): (total: nat) {
    if |ps| == 0 then 0 else NetTotal(ps[..|ps| - 1]) + ps[|ps| - 1].net
  }

  /** The part of the settlements paid out of one vault. */
  function PaidFrom(ps: seq<Payout>, vault: Address): (total: nat) {
    if |ps| == 0 then 0
    else PaidFrom(ps[..|ps| - 1], vault) + (if ps[|ps| - 1].vault == vault then ps[|ps| - 1].net else 0)
  }

  /** What the claimed positions promised, each counted once. */
  ghost function Promised(s: State): map<PositionKey, int> {
    PromisedBy(s.positions)
  }

  ghost predicate Settles(s: State, ps: seq<Payout>) {
    && (forall i, j | 0 <= i < j < |ps| :: ps[i].key != ps[j].key)
    && (forall i | 0 <= i < |ps| :: ps[i].key in Promised(s) && ps[i].net <= Promised(s)[ps[i].key])
    && (forall k | k in Promised(s) :: exists i | 0 <= i < |ps| :: ps[i].key == k)
  }

  /** A step opens one active position, settles one active position, or leaves the positions alone. */
  lemma StepPositions(s: State, tx: Transaction)
    ensures
      var paid, after := PayoutOf(s, tx), Step(s, tx).positions;
      if paid != [] then
        && paid[0].key in s.positions && s.positions[paid[0].key].status == Active
        && paid[0].net <= s.positions[paid[0].key].finalRaPayoutMicros
        && after == s.positions[paid[0].key := s.positions[paid[0].key].(status := Claimed, claimedAt := s.now)]
      else
        || after == s.positions
        || (tx.TxCreate?
            && PositionKey(tx.create.owner, tx.createArgs.sessionSeed) !in s.positions
            && after == s.positions[PositionKey(tx.create.owner, tx.createArgs.sessionSeed)
                                      := NewPosition(s, tx.create, tx.createArgs)])
  {
  }

  ghost function PromisedBy(positions: map<PositionKey, StakePosition>): map<PositionKey, int> {
    map k | k in positions && positions[k].status == Claimed :: positions[k].finalRaPayoutMicros
  }

  lemma PromisedBySet(positions: map<PositionKey, StakePosition>, k: PositionKey, p: StakePosition)
    ensures k !in PromisedBy(positions) && p.status == Active ==> PromisedBy(positions[k := p]) == PromisedBy(positions)
    ensures p.status == Claimed ==> PromisedBy(positions[k := p]) == PromisedBy(positions)[k := p.finalRaPayoutMicros]
  {
  }

  lemma PromisedAfter(s: State, tx: Transaction)
    ensures
      var paid := PayoutOf(s, tx);
      if paid == [] then Promised(Step(s, tx)) == Promised(s)
      else
        var k := paid[0].key;
        && k in s.positions && k !in Promised(s) && paid[0].net <= s.positions[k].finalRaPayoutMicros
        && Promised(Step(s, tx)) == Promised(s)[k := s.positions[k].finalRaPayoutMicros]
  {
    StepPositions(s, tx);
    var paid, after := PayoutOf(s, tx), Step(s, tx).positions;
    if paid != [] {
      PromisedBySet(s.positions, paid[0].key, after[paid[0].key]);
    } else if after != s.positions {
      var k := PositionKey(tx.create.owner, tx.createArgs.sessionSeed);
      PromisedBySet(s.positions, k, after[k]);
    }
  }

  /** The settlements of a run are exactly its claimed positions, one each; none pays more than its
      position promised, and together they pay no more than those positions promised. */
  lemma {:induction false} PaidOnce(s: State, txs: seq<Transaction>)
    requires Genesis(s)
    ensures Settles(Run(s, txs), Payouts(s, txs))
    ensures NetTotal(Payouts(s, txs)) <= Sum(Promised(Run(s, txs)))
  {
    if |txs| > 0 {
      var before := txs[..|txs| - 1];
      var mid, tx := Run(s, before), txs[|txs| - 1];
      PaidOnce(s, before);
      PromisedAfter(mid, tx);
      var ps, paid := Payouts(s, before), PayoutOf(mid, tx);
      if paid == [] {
        assert ps + paid == ps;
      } else {
        var k := paid[0].key;
        SumUpdate<PositionKey>(Promised(mid), k, mid.positions[k].finalRaPayoutMicros);
        assert (ps + paid)[..|ps + paid| - 1] == ps;
        SettlesOneMore(mid, Step(mid, tx), ps, paid[0]);
      }
    } else {
      assert Promised(s) == map[];
    }
  }

  lemma SettlesOneMore(s: State, t: State, ps: seq<Payout>, p: Payout)
    requires Settles(s, ps)
    requires p.key in s.positions && p.key !in Promised(s) && p.net <= s.positions[p.key].finalRaPayoutMicros
    requires Promised(t) == Promised(s)[p.key := s.positions[p.key].finalRaPayoutMicros]
    ensures Settles(t, ps + [p])
  {
    var more := ps + [p];
    forall k | k in Promised(t) ensures exists i | 0 <= i < |more| :: more[i].key == k {
      if k == p.key {
        assert more[|ps|].key == k;
      } else {
        var i :| 0 <= i < |ps| && ps[i].key == k;
        assert more[i].key == k;
      }
    }
  }

  // ---------- the reward vaults ----------

  /** Tokens a run brought into an account, from whoever sent them. */
  ghost function Inflow(s: State, txs: seq<Transaction>, a: Address): (total: nat) {
    if |txs| == 0 then 0
    else
      var move := MoveOf(Run(s, txs[..|txs| - 1]), txs[|txs| - 1]);
      Inflow(s, txs[..|txs| - 1], a) + (if move.Move? && move.to == a then move.amount else 0)
  }

  lemma VaultStep(s: State, tx: Transaction, vault: Address)
    requires vault in s.ledger && s.ledger[vault].owner == PoolConfigPda
    ensures vault in Step(s, tx).ledger && Step(s, tx).ledger[vault].owner == PoolConfigPda
    ensures
      var move, paid := MoveOf(s, tx), PayoutOf(s, tx);
      Step(s, tx).ledger[vault].amount == s.ledger[vault].amount
        + (if move.Move? && move.to == vault then move.amount else 0)
        - (if paid != [] && paid[0].vault == vault then paid[0].net else 0)
  {
    StepMoves(s, tx);
    OnlyClaimsSpend(s, tx, vault);
  }

  /** The configuration account signs nothing but the settlements of claims. */
  lemma OnlyClaimsSpend(s: State, tx: Transaction, vault: Address)
    requires vault in s.ledger && s.ledger[vault].owner == PoolConfigPda
    ensures
      var move := MoveOf(s, tx);
      && (move.Move? && move.from == vault ==>
            PayoutOf(s, tx) != [] && PayoutOf(s, tx)[0].vault == vault && PayoutOf(s, tx)[0].net == move.amount
            && move.to != vault)
      && (PayoutOf(s, tx) != [] ==> move.Move? && move.from == PayoutOf(s, tx)[0].vault)
  {
    StepMoves(s, tx);
  }

  /** The balance of a vault the pool's configuration account owns is what it held, plus everything
      sent to it, minus the settlements of claims paid from it. Nothing else can leave. */
  lemma {:induction false} VaultBalance(s: State, txs: seq<Transaction>, vault: Address)
    requires vault in s.ledger && s.ledger[vault].owner == PoolConfigPda
    ensures vault in Run(s, txs).ledger && Run(s, txs).ledger[vault].owner == PoolConfigPda
    ensures Run(s, txs).ledger[vault].amount
            == s.ledger[vault].amount + Inflow(s, txs, vault) - PaidFrom(Payouts(s, txs), vault)
  {
    if |txs| > 0 {
      var before := txs[..|txs| - 1];
      var mid, tx := Run(s, before), txs[|txs| - 1];
      VaultBalance(s, before, vault);
      VaultStep(mid, tx, vault);
      PaidFromNext(Payouts(s, before), PayoutOf(mid, tx), vault);
    }
  }

  lemma PaidFromNext(ps: seq<Payout>, paid: seq<Payout>, vault: Address)
    requires |paid| <= 1
    ensures PaidFrom(ps + paid, vault)
            == PaidFrom(ps, vault) + if paid != [] && paid[0].vault == vault then paid[0].net else 0
  {
    if paid == [] {
      assert ps + paid == ps;
    } else {
      assert (ps + paid)[..|ps + paid| - 1] == ps;
    }
  }

  // ---------- what a position and a batch remember ----------

  /** p is what the creation with these arguments recorded, whatever became of its status since: the arguments
      and the clock, where the rate is the one the token's configuration had for the period, the amount within
      its limits, and the payout adds up. */
  ghost predicate Remembers(p: StakePosition, s: State, acc: CreateAccounts, args: CreateArgs) {
    && acc.inputMint in s.tokenConfigs && |s.tokenConfigs[acc.inputMint].aprBps| == 5
    && var token := s.tokenConfigs[acc.inputMint];
    && token.enabled && token.minStakeUsdMicros <= p.amountUsdMicros <= token.maxStakeUsdMicros
    && p.periodDays == args.periodDays && p.aprBps == args.aprBps
    && token.AprBpsForPeriod(p.periodDays) == Success(p.aprBps)
    && p.owner == acc.owner && p.sessionSeed == args.sessionSeed && p.inputMint == acc.inputMint
    && p.globalConfig == PoolConfigPda && p.tokenConfig == acc.inputMint
    && p.startedAt == s.now < p.unlockAt && p.unlockAt == args.unlockAt
    && p.inputAmountRaw == args.inputAmountRaw && p.inputTokenDecimals == args.inputTokenDecimals
    && p.inputMint in s.mints && s.mints[p.inputMint] == p.inputTokenDecimals
    && p.amountUiMicros == args.amountUiMicros && p.amountUsdMicros == args.amountUsdMicros
    && p.principalRaMicros == args.principalRaMicros && p.rewardRaMicros == args.rewardRaMicros
    && p.finalRaPayoutMicros == args.finalRaPayoutMicros == args.principalRaMicros + args.rewardRaMicros
  }

  /** Some creation in the run recorded what p remembers. */
  ghost predicate CreatedIn(s: State, txs: seq<Transaction>, p: StakePosition) {
    exists i :: 0 <= i < |txs| && txs[i].TxCreate? && Remembers(p, Run(s, txs[..i]), txs[i].create, txs[i].createArgs)
  }

  lemma CreatedEarlier(s: State, txs: seq<Transaction>, p: StakePosition, q: StakePosition)
    requires |txs| > 0 && CreatedIn(s, txs[..|txs| - 1], p) && PositionEvolves(p, q)
    ensures CreatedIn(s, txs, q)
  {
    var before := txs[..|txs| - 1];
    var i :| 0 <= i < |before| && before[i].TxCreate?
             && Remembers(p, Run(s, before[..i]), before[i].create, before[i].createArgs);
    assert txs[..i] == before[..i] && txs[i] == before[i];
  }

  lemma JustCreated(s: State, acc: CreateAccounts, args: CreateArgs)
    requires CreateStakePosition(s, acc, args).Success?
    ensures Remembers(NewPosition(s, acc, args), s, acc, args)
  {
  }

  /** Every position of a run still holds what its creation recorded. */
  lemma {:induction false} PositionsRemember(s: State, txs: seq<Transaction>, k: PositionKey)
    requires Genesis(s) && k in Run(s, txs).positions
    ensures CreatedIn(s, txs, Run(s, txs).positions[k])
  {
    if |txs| > 0 {
      var before, tx := txs[..|txs| - 1], txs[|txs| - 1];
      var mid := Run(s, before);
      StepEvolvesPositions(mid, tx);
      StepPositions(mid, tx);
      if k in mid.positions {
        PositionsRemember(s, before, k);
        CreatedEarlier(s, txs, mid.positions[k], Step(mid, tx).positions[k]);
      } else {
        JustCreated(mid, tx.create, tx.createArgs);
        assert txs[..|txs| - 1] == before;
      }
    }
  }

  // ---------- when an instruction succeeds ----------

  /** The token is enabled and configured, the position is new, the accounts are the configured ones, the snapshot
      agrees with the configuration and adds up, and the owner can pay. */
  predicate CreateAllowed(t: State, acc: CreateAccounts, args: CreateArgs) {
    && acc.owner.Wallet? && t.pool.Some? && acc.inputMint in t.tokenConfigs && acc.inputMint in t.mints
    && PositionKey(acc.owner, args.sessionSeed) !in t.positions
    && acc.userInputAta in t.ledger && acc.swapNodeVault in t.ledger && acc.rewardVault in t.ledger
    && var token := t.tokenConfigs[acc.inputMint];
    && token.enabled
    && acc.rewardVault == t.pool.value.rewardVault && acc.swapNodeProgram == t.pool.value.swapNodeProgram
    && t.ledger[acc.userInputAta].owner == acc.owner && t.ledger[acc.userInputAta].mint == acc.inputMint
    && t.ledger[acc.swapNodeVault].owner == acc.swapNodeVaultAuthority && t.ledger[acc.swapNodeVault].mint == acc.inputMint
    && t.ledger[acc.rewardVault].owner == PoolConfigPda && t.ledger[acc.rewardVault].mint == t.pool.value.raMint
    && token.minStakeUsdMicros <= args.amountUsdMicros <= token.maxStakeUsdMicros
    && |token.aprBps| == 5 && token.AprBpsForPeriod(args.periodDays) == Success(args.aprBps)
    && args.principalRaMicros + args.rewardRaMicros == args.finalRaPayoutMicros && t.now < args.unlockAt
    && args.inputTokenDecimals == t.mints[acc.inputMint]
    && CanMove(t.ledger, acc.userInputAta, acc.swapNodeVault, args.inputAmountRaw)
  }

  /** The position is active and due, the accounts are the configured ones, fee and net make up the promised
      payout, and the vault can pay. */
  predicate ClaimAllowed(t: State, acc: ClaimAccounts, args: ClaimArgs) {
    var key := PositionKey(acc.owner, acc.sessionSeed);
    && t.pool.Some? && key in t.positions && acc.raMint in t.mints && t.mints[acc.raMint] == 6
    && t.pool.value.rewardVault == acc.rewardVault && t.pool.value.raMint == acc.raMint
    && acc.rewardVault in t.ledger && acc.userRewardAta in t.ledger
    && t.ledger[acc.rewardVault].owner == PoolConfigPda && t.ledger[acc.rewardVault].mint == acc.raMint
    && t.ledger[acc.userRewardAta].owner == acc.owner && t.ledger[acc.userRewardAta].mint == acc.raMint
    && t.positions[key].status == Active && t.positions[key].unlockAt <= t.now
    && args.claimFeeRaMicros + args.netPayoutRaMicros == args.rewardGrossRaMicros == t.positions[key].finalRaPayoutMicros
    && CanMove(t.ledger, acc.rewardVault, acc.userRewardAta, args.netPayoutRaMicros)
  }

  /** The batch is approved, its mint is the configured one, the vault is both the batch's and the configured one,
      and the authority can pay an amount that is positive and approved. */
  predicate ExecuteAllowed(t: State, acc: ExecuteAccounts, funded: u64) {
    var key := BatchKey(acc.inputMint, acc.batchSeed);
    && acc.authority.Wallet? && t.swap.Some? && t.swap.value.CanWrite(acc.authority)
    && key in t.batches && acc.inputMint in t.mints && t.mints[acc.inputMint] == 6
    && t.swap.value.raMint == acc.inputMint && t.batches[key].status == Approved
    && acc.rewardVault == t.batches[key].rewardVault == t.swap.value.stakeRewardVault
    && acc.fundingSourceAta in t.ledger && acc.rewardVault in t.ledger
    && t.ledger[acc.fundingSourceAta].owner == acc.authority && t.ledger[acc.fundingSourceAta].mint == acc.inputMint
    && t.ledger[acc.rewardVault].owner == acc.rewardVaultAuthority && t.ledger[acc.rewardVault].mint == acc.inputMint
    && 0 < funded <= t.batches[key].approvedInputAmountRaw
    && CanMove(t.ledger, acc.fundingSourceAta, acc.rewardVault, funded)
  }

  /** In every reachable state a stake is accepted, a claim settles and a batch executes exactly then. */
  lemma CreateSucceedsIff(s: State, txs: seq<Transaction>, acc: CreateAccounts, args: CreateArgs)
    requires Genesis(s)
    ensures CreateStakePosition(Run(s, txs), acc, args).Success? <==> CreateAllowed(Run(s, txs), acc, args)
  {
    ReachableInv(s, txs);
  }

  lemma ClaimSucceedsIff(s: State, txs: seq<Transaction>, acc: ClaimAccounts, args: ClaimArgs)
    requires Genesis(s)
    ensures ClaimStakePosition(Run(s, txs), acc, args).Success? <==> ClaimAllowed(Run(s, txs), acc, args)
  {
    ReachableInv(s, txs);
  }

  lemma ExecuteSucceedsIff(s: State, txs: seq<Transaction>, acc: ExecuteAccounts, funded: u64)
    requires Genesis(s)
    ensures ExecuteFundingBatch(Run(s, txs), acc, funded).Success? <==> ExecuteAllowed(Run(s, txs), acc, funded)
  {
    ReachableInv(s, txs);
  }

  /** The configured vault is one of the pool's, in the configured mint, with six decimals. */
  predicate VaultConfigured(t: State) {
    && t.pool.Some? && t.pool.value.raMint in t.mints && t.mints[t.pool.value.raMint] == 6
    && t.pool.value.rewardVault in t.ledger
    && t.ledger[t.pool.value.rewardVault].owner == PoolConfigPda
    && t.ledger[t.pool.value.rewardVault].mint == t.pool.value.raMint
  }

  /** No due position is locked out: once the vault holds its payout, its owner can settle it into any account of
      theirs with room for it, at any division of the payout into fee and net, and at no other amount. */
  lemma DuePositionSettles(s: State, txs: seq<Transaction>, key: PositionKey, account: Address, args: ClaimArgs)
    requires Genesis(s)
    requires
      var t := Run(s, txs);
      && VaultConfigured(t) && key in t.positions && t.positions[key].status == Active && t.positions[key].unlockAt <= t.now
      && account in t.ledger && t.ledger[account].owner == key.owner && t.ledger[account].mint == t.pool.value.raMint
      && t.positions[key].finalRaPayoutMicros <= t.ledger[t.pool.value.rewardVault].amount
      && t.ledger[account].amount + t.positions[key].finalRaPayoutMicros <= U64_MAX
    ensures
      var t := Run(s, txs);
      var acc := ClaimAccounts(key.owner, key.sessionSeed, t.pool.value.rewardVault, account, t.pool.value.raMint);
      ClaimStakePosition(t, acc, args).Success? <==>
        args.claimFeeRaMicros + args.netPayoutRaMicros == args.rewardGrossRaMicros == t.positions[key].finalRaPayoutMicros
  {
    ReachableInv(s, txs);
    var t := Run(s, txs);
    ClaimSucceedsIff(s, txs, ClaimAccounts(key.owner, key.sessionSeed, t.pool.value.rewardVault, account, t.pool.value.raMint), args);
  }

  // ---------- what a refusal means ----------

  predicate HoldsFor(t: State, account: Address, owner: Owner, mint: MintId) {
    account in t.ledger && t.ledger[account].owner == owner && t.ledger[account].mint == mint
  }

  /** What is wrong with a stake refused with this error. */
  predicate CreateFault(t: State, acc: CreateAccounts, args: CreateArgs, error: Error) {
    var named := acc.inputMint in t.tokenConfigs;
    match error
    case AccountConstraint =>
      || t.pool.None? || !named || acc.inputMint !in t.mints || !acc.owner.Wallet?
      || PositionKey(acc.owner, args.sessionSeed) in t.positions
      || acc.userInputAta !in t.ledger || acc.swapNodeVault !in t.ledger || acc.rewardVault !in t.ledger
      || |t.tokenConfigs[acc.inputMint].aprBps| != 5
    case TokenDisabled => named && !t.tokenConfigs[acc.inputMint].enabled
    case InvalidRewardVault =>
      t.pool.Some? && !(acc.rewardVault == t.pool.value.rewardVault
                        && HoldsFor(t, acc.rewardVault, PoolConfigPda, t.pool.value.raMint))
    case InvalidSwapNodeProgram => t.pool.Some? && acc.swapNodeProgram != t.pool.value.swapNodeProgram
    case InvalidUserInputAccount => !HoldsFor(t, acc.userInputAta, acc.owner, acc.inputMint)
    case InvalidSwapNodeVault => !HoldsFor(t, acc.swapNodeVault, acc.swapNodeVaultAuthority, acc.inputMint)
    case BelowMinimumStake => named && args.amountUsdMicros < t.tokenConfigs[acc.inputMint].minStakeUsdMicros
    case AboveMaximumStake => named && args.amountUsdMicros > t.tokenConfigs[acc.inputMint].maxStakeUsdMicros
    case UnsupportedPeriod => args.periodDays !in [7, 30, 90, 180, 365]
    case InvalidAprSnapshot =>
      named && |t.tokenConfigs[acc.inputMint].aprBps| == 5
      && t.tokenConfigs[acc.inputMint].AprBpsForPeriod(args.periodDays) != Success(args.aprBps)
    case MathOverflow => args.principalRaMicros + args.rewardRaMicros > 0xFFFF_FFFF_FFFF_FFFF
    case InvalidPayoutSnapshot => args.principalRaMicros + args.rewardRaMicros != args.finalRaPayoutMicros
    case InvalidUnlockAt => args.unlockAt <= t.now
    case TransferFailed =>
      && acc.userInputAta in t.ledger && acc.swapNodeVault in t.ledger && acc.inputMint in t.mints
      && (args.inputTokenDecimals != t.mints[acc.inputMint]
          || !CanMove(t.ledger, acc.userInputAta, acc.swapNodeVault, args.inputAmountRaw))
    case _ => false
  }

  /** What is wrong with a claim refused with this error. */
  predicate ClaimFault(t: State, acc: ClaimAccounts, args: ClaimArgs, error: Error) {
    var key := PositionKey(acc.owner, acc.sessionSeed);
    match error
    case AccountConstraint =>
      || t.pool.None? || key !in t.positions || acc.raMint !in t.mints || !acc.owner.Wallet?
      || acc.rewardVault !in t.ledger || acc.userRewardAta !in t.ledger
    case InvalidRewardVault =>
      t.pool.Some? && !(acc.rewardVault == t.pool.value.rewardVault && HoldsFor(t, acc.rewardVault, PoolConfigPda, acc.raMint))
    case InvalidRaMint => t.pool.Some? && acc.raMint != t.pool.value.raMint
    case InvalidUserRewardAccount => !HoldsFor(t, acc.userRewardAta, acc.owner, acc.raMint)
    case InvalidRaMintDecimals => acc.raMint in t.mints && t.mints[acc.raMint] != 6
    case StakeAlreadyFinalized => key in t.positions && t.positions[key].status != Active
    case StakeNotReady => key in t.positions && t.now < t.positions[key].unlockAt
    case MathOverflow => args.claimFeeRaMicros + args.netPayoutRaMicros > 0xFFFF_FFFF_FFFF_FFFF
    case InvalidClaimSettlement =>
      key in t.positions
      && !(args.claimFeeRaMicros + args.netPayoutRaMicros == args.rewardGrossRaMicros == t.positions[key].finalRaPayoutMicros)
    case TransferFailed =>
      && acc.rewardVault in t.ledger && acc.userRewardAta in t.ledger
      && !CanMove(t.ledger, acc.rewardVault, acc.userRewardAta, args.netPayoutRaMicros)
    case _ => false
  }

  /** What is wrong with a funding refused with this error. */
  predicate ExecuteFault(t: State, acc: ExecuteAccounts, funded: u64, error: Error) {
    var key := BatchKey(acc.inputMint, acc.batchSeed);
    match error
    case AccountConstraint =>
      || t.swap.None? || key !in t.batches || acc.inputMint !in t.mints || !acc.authority.Wallet?
      || acc.fundingSourceAta !in t.ledger || acc.rewardVault !in t.ledger
    case UnauthorizedAuthority =>
      t.swap.Some? && acc.authority !in {t.swap.value.operatorAuthority, t.swap.value.multisigAuthority}
    case FundingBatchNotReady => key in t.batches && t.batches[key].status != Approved
    case InvalidInputMint => t.swap.Some? && t.swap.value.raMint != acc.inputMint
    case InvalidRewardVault =>
      t.swap.Some? && key in t.batches
      && !(acc.rewardVault == t.batches[key].rewardVault == t.swap.value.stakeRewardVault
           && HoldsFor(t, acc.rewardVault, acc.rewardVaultAuthority, t.swap.value.raMint))
    case InvalidFundingSourceAccount => !HoldsFor(t, acc.fundingSourceAta, acc.authority, acc.inputMint)
    case InvalidRaMintDecimals => acc.inputMint in t.mints && t.mints[acc.inputMint] != 6
    case InvalidFundingAmount => key in t.batches && !(0 < funded <= t.batches[key].approvedInputAmountRaw)
    case TransferFailed =>
      && acc.fundingSourceAta in t.ledger && acc.rewardVault in t.ledger
      && !CanMove(t.ledger, acc.fundingSourceAta, acc.rewardVault, funded)
    case _ => false
  }

  /** In every reachable state a refusal names something that is wrong. */
  lemma CreateRefusedFor(s: State, txs: seq<Transaction>, acc: CreateAccounts, args: CreateArgs)
    requires Genesis(s)
    ensures var r := CreateStakePosition(Run(s, txs), acc, args);
      r.Failure? ==> CreateFault(Run(s, txs), acc, args, r.error)
  {
    ReachableInv(s, txs);
    CreateCheckFault(Run(s, txs), acc, args);
  }

  lemma CreateCheckFault(t: State, acc: CreateAccounts, args: CreateArgs)
    requires StateInv(t)
    ensures var check := CreateChecks(t, acc, args);
      check.Some? ==> CreateFault(t, acc, args, check.value)
  {
  }

  lemma ClaimRefusedFor(s: State, txs: seq<Transaction>, acc: ClaimAccounts, args: ClaimArgs)
    requires Genesis(s)
    ensures var r := ClaimStakePosition(Run(s, txs), acc, args);
      r.Failure? ==> ClaimFault(Run(s, txs), acc, args, r.error)
  {
    ReachableInv(s, txs);
    ClaimCheckFault(Run(s, txs), acc, args);
  }

  lemma ClaimCheckFault(t: State, acc: ClaimAccounts, args: ClaimArgs)
    requires StateInv(t)
    ensures var check := ClaimChecks(t, acc, args);
      check.Some? ==> ClaimFault(t, acc, args, check.value)
  {
  }

  lemma ExecuteRefusedFor(s: State, txs: seq<Transaction>, acc: ExecuteAccounts, funded: u64)
    requires Genesis(s)
    ensures var r := ExecuteFundingBatch(Run(s, txs), acc, funded);
      r.Failure? ==> ExecuteFault(Run(s, txs), acc, funded, r.error)
  {
    ReachableInv(s, txs);
    ExecuteCheckFault(Run(s, txs), acc, funded);
  }

  lemma ExecuteCheckFault(t: State, acc: ExecuteAccounts, funded: u64)
    requires StateInv(t)
    ensures var check := ExecuteChecks(t, acc, funded);
      check.Some? ==> ExecuteFault(t, acc, funded, check.value)
  {
  }
}
