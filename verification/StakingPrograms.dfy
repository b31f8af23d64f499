/** programs/stake-pool/src/lib.rs and programs/swap-node/src/lib.rs as one transition system over
    their accounts and a token ledger. A transaction either succeeds or leaves everything as it was. */
module StakingPrograms {
  import opened Sums
  import opened Wrappers

  const U64_MAX := 0xFFFF_FFFF_FFFF_FFFF

  type u64 = x: int | 0 <= x <= 0xFFFF_FFFF_FFFF_FFFF
  type u16 = x: int | 0 <= x < 0x1_0000
  type u8 = x: int | 0 <= x < 0x100
  type i64 = x: int | -0x8000_0000_0000_0000 <= x < 0x8000_0000_0000_0000

  /** The staking periods, in the order of a token's rates. */
  const PERIODS: seq<int> := [7, 30, 90, 180, 365]

  /** Who can own an account: a key pair, which can sign, or a program-derived address, which cannot. */
  datatype Owner = Wallet(id: nat) | PoolConfigPda | SwapConfigPda | OtherPda(id: nat)

  type Address = nat  // token accounts
  type MintId = nat

  datatype TokenAccount = TokenAccount(owner: Owner, mint: MintId, amount: u64)
  type TokenLedger = map<Address, TokenAccount>

  datatype GlobalConfig = GlobalConfig(
    paused: bool, activeNetwork: u8, operatorAuthority: Owner, multisigAuthority: Owner,
    rewardVault: Address, raMint: MintId, swapNodeProgram: nat)
  {
    predicate CanWrite(authority: Owner) {
      authority == operatorAuthority || authority == multisigAuthority
    }
  }

  datatype TokenStakeConfig = TokenStakeConfig(
    enabled: bool, globalConfig: Owner, tokenMint: MintId, minStakeUsdMicros: u64, maxStakeUsdMicros: u64,
    aprBps: seq<u16>, configVersion: nat, updatedAt: i64)
  {
    function AprBpsForPeriod(periodDays: u16): (r: Result<u16, Error>)
      requires |aprBps| == 5
      ensures r.Success? ==> exists i :: 0 <= i < |PERIODS| && PERIODS[i] == periodDays && r.value == aprBps[i]
      ensures r.Failure? <==> periodDays !in PERIODS
    {
      assert PERIODS[0] == 7 && PERIODS[1] == 30 && PERIODS[2] == 90 && PERIODS[3] == 180 && PERIODS[4] == 365;
      match periodDays
      case 7 => Success(aprBps[0])
      case 30 => Success(aprBps[1])
      case 90 => Success(aprBps[2])
      case 180 => Success(aprBps[3])
      case 365 => Success(aprBps[4])
      case _ => Failure(UnsupportedPeriod)
    }
  }

  datatype PositionStatus = Active | Claimed | CancelledPosition | Migrated

  datatype StakePosition = StakePosition(
    status: PositionStatus, inputTokenDecimals: u8, periodDays: u16, aprBps: u16, owner: Owner,
    globalConfig: Owner, tokenConfig: MintId, inputMint: MintId, sessionSeed: nat, inputAmountRaw: u64,
    amountUiMicros: u64, amountUsdMicros: u64, principalRaMicros: u64, rewardRaMicros: u64,
    finalRaPayoutMicros: u64, startedAt: i64, unlockAt: i64, claimedAt: i64)

  /** The seeds of a position's address. */
  datatype PositionKey = PositionKey(owner: Owner, sessionSeed: nat)

  datatype SwapNodeConfig = SwapNodeConfig(
    paused: bool, operatorAuthority: Owner, multisigAuthority: Owner, stakePoolProgram: nat,
    raMint: MintId, stakeRewardVault: Address)
  {
    predicate CanWrite(authority: Owner) {
      authority == operatorAuthority || authority == multisigAuthority
    }
  }

  datatype BatchStatus = Approved | Executed | Cancelled

  datatype FundingBatch = FundingBatch(
    status: BatchStatus, inputMint: MintId, rewardVault: Address, operatorAuthority: Owner, batchSeed: nat,
    approvedInputAmountRaw: u64, plannedRewardAmountRaw: u64, fundedRewardAmountRaw: u64,
    createdAt: i64, executedAt: i64, cancelledAt: i64)

  datatype BatchKey = BatchKey(inputMint: MintId, batchSeed: nat)

  datatype State = State(
    now: i64,
    pool: Option<GlobalConfig>,
    tokenConfigs: map<MintId, TokenStakeConfig>,
    positions: map<PositionKey, StakePosition>,
    swap: Option<SwapNodeConfig>,
    batches: map<BatchKey, FundingBatch>,
    mints: map<MintId, u8>,
    ledger: TokenLedger)

  datatype Error =
    | AccountConstraint | UnauthorizedAuthority | ProgramPaused | TokenDisabled | InvalidGlobalConfig
    | InvalidInputMint | InvalidRewardVault | InvalidSwapNodeProgram | BelowMinimumStake | AboveMaximumStake
    | InvalidAprSnapshot | InvalidPayoutSnapshot | InvalidUnlockAt | MathOverflow | UnsupportedPeriod
    | UnauthorizedOwner | StakeNotReady | StakeAlreadyFinalized | InvalidUserInputAccount | InvalidSwapNodeVault
    | InvalidRaMint | InvalidUserRewardAccount | InvalidRaMintDecimals | InvalidClaimSettlement
    | InvalidFundingSourceAccount | FundingBatchNotReady | InvalidFundingAmount | TransferFailed

  // ---------- the token program ----------

  /** transfer_checked: a signed move within one mint; a move to itself changes nothing. */
  function TransferChecked(ledger: TokenLedger, mints: map<MintId, u8>, from: Address, mint: MintId, to: Address,
                           authority: Owner, amount: u64, decimals: u8): (r: Result<TokenLedger, Error>)
  {
    if from !in ledger || to !in ledger || mint !in mints then Failure(TransferFailed)
    else if ledger[from].mint != mint || ledger[to].mint != mint || mints[mint] != decimals then Failure(TransferFailed)
    else if ledger[from].owner != authority || ledger[from].amount < amount then Failure(TransferFailed)
    else if from == to then Success(ledger)
    else if ledger[to].amount + amount > U64_MAX then Failure(TransferFailed)
    else
      var debited := ledger[from := ledger[from].(amount := ledger[from].amount - amount)];
      Success(debited[to := ledger[to].(amount := ledger[to].amount + amount)])
  }

  /** The source holds the amount, and it fits into the destination. */
  predicate CanMove(ledger: TokenLedger, from: Address, to: Address, amount: u64)
    requires from in ledger && to in ledger
  {
    amount <= ledger[from].amount && (from != to ==> ledger[to].amount + amount <= U64_MAX)
  }

  /** The amount left one account for the other, and nothing else changed. */
  ghost predicate TokensMoved(before: TokenLedger, after: TokenLedger, from: Address, to: Address, amount: u64) {
    && from in before && to in before && after.Keys == before.Keys
    && (forall a | a in before && ((a != from && a != to) || from == to) :: after[a] == before[a])
    && (from != to ==>
          && after[from].owner == before[from].owner && after[from].mint == before[from].mint
          && after[to].owner == before[to].owner && after[to].mint == before[to].mint
          && after[from].amount == before[from].amount - amount && after[to].amount == before[to].amount + amount)
  }

  ghost function Balances(ledger: TokenLedger, mint: MintId): map<Address, int> {
    map a | a in ledger && ledger[a].mint == mint :: ledger[a].amount
  }

  /** The tokens of one mint, over all accounts. */
  ghost function Supply(ledger: TokenLedger, mint: MintId): int {
    Sum(Balances(ledger, mint))
  }

  ghost function Moved(b: map<Address, int>, from: Address, to: Address, amount: int): map<Address, int>
    requires from in b && to in b
  {
    b[from := b[from] - amount][to := b[to] + amount]
  }

  /** A debit and an equal credit leave the total alone. */
  lemma {:induction false} MoveConserves(b: map<Address, int>, from: Address, to: Address, amount: int)
    requires from in b && to in b && from != to
    ensures Sum(Moved(b, from, to, amount)) == Sum(b)
  {
    var debited: map<Address, int> := b[from := b[from] - amount];
    SumUpdate<Address>(b, from, b[from] - amount);
    SumUpdate<Address>(debited, to, b[to] + amount);
    assert debited[to] == b[to];
    assert Moved(b, from, to, amount) == debited[to := b[to] + amount];
  }

  lemma TransferConserves(ledger: TokenLedger, mints: map<MintId, u8>, from: Address, mint: MintId, to: Address,
                          authority: Owner, amount: u64, decimals: u8, m: MintId)
    requires TransferChecked(ledger, mints, from, mint, to, authority, amount, decimals).Success?
    ensures Supply(TransferChecked(ledger, mints, from, mint, to, authority, amount, decimals).value, m) == Supply(ledger, m)
  {
    var after := TransferChecked(ledger, mints, from, mint, to, authority, amount, decimals).value;
    var b: map<Address, int> := Balances(ledger, m);
    TransferMoves(ledger, mints, from, mint, to, authority, amount, decimals);
    if from != to && m == mint {
      MoveConserves(b, from, to, amount);
      BalancesMoved(ledger, after, from, to, amount, m);
    } else {
      BalancesKept(ledger, after, from, to, amount, m);
    }
  }

  lemma TransferMoves(ledger: TokenLedger, mints: map<MintId, u8>, from: Address, mint: MintId, to: Address,
                      authority: Owner, amount: u64, decimals: u8)
    requires TransferChecked(ledger, mints, from, mint, to, authority, amount, decimals).Success?
    ensures TokensMoved(ledger, TransferChecked(ledger, mints, from, mint, to, authority, amount, decimals).value, from, to, amount)
    ensures ledger[from].mint == mint && ledger[to].mint == mint
  {
  }

  lemma BalancesMoved(before: TokenLedger, after: TokenLedger, from: Address, to: Address, amount: u64, m: MintId)
    requires TokensMoved(before, after, from, to, amount) && from != to && before[from].mint == m && before[to].mint == m
    ensures Balances(after, m) == Moved(Balances(before, m), from, to, amount)
  {
  }

  lemma BalancesKept(before: TokenLedger, after: TokenLedger, from: Address, to: Address, amount: u64, m: MintId)
    requires TokensMoved(before, after, from, to, amount) && (from == to || (before[from].mint != m && before[to].mint != m))
    ensures Balances(after, m) == Balances(before, m)
  {
  }

  // ---------- stake-pool instructions ----------

  datatype CreateArgs = CreateArgs(
    sessionSeed: nat, inputAmountRaw: u64, inputTokenDecimals: u8, amountUiMicros: u64, amountUsdMicros: u64,
    principalRaMicros: u64, rewardRaMicros: u64, finalRaPayoutMicros: u64, aprBps: u16, periodDays: u16, unlockAt: i64)

  datatype CreateAccounts = CreateAccounts(
    owner: Owner, inputMint: MintId, userInputAta: Address, swapNodeVaultAuthority: Owner, swapNodeVault: Address,
    rewardVault: Address, swapNodeProgram: nat)

  /** The require! checks of create_stake_position, in order, after the account constraints. */
  function CreateChecks(s: State, acc: CreateAccounts, args: CreateArgs): (r: Option<Error>)
    ensures r.None? ==>
      && s.pool.Some? && acc.inputMint in s.tokenConfigs && acc.inputMint in s.mints
      && PositionKey(acc.owner, args.sessionSeed) !in s.positions
      && args.principalRaMicros + args.rewardRaMicros == args.finalRaPayoutMicros
      && args.unlockAt > s.now
  {
    if s.pool.None? || acc.inputMint !in s.tokenConfigs || acc.inputMint !in s.mints
       || PositionKey(acc.owner, args.sessionSeed) in s.positions
       || acc.userInputAta !in s.ledger || acc.swapNodeVault !in s.ledger || acc.rewardVault !in s.ledger
       || !acc.owner.Wallet?
    then Some(AccountConstraint)
    else
      var config, token := s.pool.value, s.tokenConfigs[acc.inputMint];
      var input, vault, reward := s.ledger[acc.userInputAta], s.ledger[acc.swapNodeVault], s.ledger[acc.rewardVault];
      if config.paused then Some(ProgramPaused)
      else if !token.enabled then Some(TokenDisabled)
      else if token.globalConfig != PoolConfigPda then Some(InvalidGlobalConfig)
      else if token.tokenMint != acc.inputMint then Some(InvalidInputMint)
      else if config.rewardVault != acc.rewardVault then Some(InvalidRewardVault)
      else if config.swapNodeProgram != acc.swapNodeProgram then Some(InvalidSwapNodeProgram)
      else if input.owner != acc.owner then Some(InvalidUserInputAccount)
      else if input.mint != acc.inputMint then Some(InvalidUserInputAccount)
      else if vault.owner != acc.swapNodeVaultAuthority then Some(InvalidSwapNodeVault)
      else if vault.mint != acc.inputMint then Some(InvalidSwapNodeVault)
      else if reward.owner != PoolConfigPda then Some(InvalidRewardVault)
      else if reward.mint != config.raMint then Some(InvalidRewardVault)
      else if args.amountUsdMicros < token.minStakeUsdMicros then Some(BelowMinimumStake)
      else if args.amountUsdMicros > token.maxStakeUsdMicros then Some(AboveMaximumStake)
      else if |token.aprBps| != 5 then Some(AccountConstraint)
      else
        var apr := token.AprBpsForPeriod(args.periodDays);
        if apr.Failure? then Some(apr.error)
        else if args.aprBps != apr.value then Some(InvalidAprSnapshot)
        else if args.principalRaMicros + args.rewardRaMicros > U64_MAX then Some(MathOverflow)
        else if args.principalRaMicros + args.rewardRaMicros != args.finalRaPayoutMicros then Some(InvalidPayoutSnapshot)
        else if args.unlockAt <= s.now then Some(InvalidUnlockAt)
        else None
  }

  /** The position create_stake_position records. */
  function NewPosition(s: State, acc: CreateAccounts, args: CreateArgs): StakePosition {
    StakePosition(Active, args.inputTokenDecimals, args.periodDays, args.aprBps, acc.owner, PoolConfigPda,
                  acc.inputMint, acc.inputMint, args.sessionSeed, args.inputAmountRaw, args.amountUiMicros,
                  args.amountUsdMicros, args.principalRaMicros, args.rewardRaMicros, args.finalRaPayoutMicros,
                  s.now, args.unlockAt, 0)
  }

  function CreateStakePosition(s: State, acc: CreateAccounts, args: CreateArgs): Result<State, Error> {
    var check := CreateChecks(s, acc, args);
    if check.Some? then Failure(check.value)
    else
      var moved := TransferChecked(s.ledger, s.mints, acc.userInputAta, acc.inputMint, acc.swapNodeVault, acc.owner,
                                   args.inputAmountRaw, args.inputTokenDecimals);
      if moved.Failure? then Failure(moved.error)
      else Success(s.(ledger := moved.value,
                      positions := s.positions[PositionKey(acc.owner, args.sessionSeed) := NewPosition(s, acc, args)]))
  }

  datatype ClaimArgs = ClaimArgs(rewardGrossRaMicros: u64, netPayoutRaMicros: u64, claimFeeRaMicros: u64)

  datatype ClaimAccounts = ClaimAccounts(
    owner: Owner, sessionSeed: nat, rewardVault: Address, userRewardAta: Address, raMint: MintId)

  function ClaimChecks(s: State, acc: ClaimAccounts, args: ClaimArgs): (r: Option<Error>)
    ensures r.None? ==>
      && PositionKey(acc.owner, acc.sessionSeed) in s.positions && acc.raMint in s.mints
      && s.positions[PositionKey(acc.owner, acc.sessionSeed)].status == Active
      && s.now >= s.positions[PositionKey(acc.owner, acc.sessionSeed)].unlockAt
      && args.claimFeeRaMicros + args.netPayoutRaMicros
         == s.positions[PositionKey(acc.owner, acc.sessionSeed)].finalRaPayoutMicros
  {
    var key := PositionKey(acc.owner, acc.sessionSeed);
    if s.pool.None? || key !in s.positions || acc.raMint !in s.mints || !acc.owner.Wallet?
       || acc.rewardVault !in s.ledger || acc.userRewardAta !in s.ledger
    then Some(AccountConstraint)
    else
      var config, position := s.pool.value, s.positions[key];
      var reward, user := s.ledger[acc.rewardVault], s.ledger[acc.userRewardAta];
      if position.owner != acc.owner then Some(UnauthorizedOwner)
      else if position.globalConfig != PoolConfigPda then Some(InvalidGlobalConfig)
      else if config.rewardVault != acc.rewardVault then Some(InvalidRewardVault)
      else if config.raMint != acc.raMint then Some(InvalidRaMint)
      else if reward.owner != PoolConfigPda then Some(InvalidRewardVault)
      else if reward.mint != acc.raMint then Some(InvalidRewardVault)
      else if user.owner != acc.owner then Some(InvalidUserRewardAccount)
      else if user.mint != acc.raMint then Some(InvalidUserRewardAccount)
      else if s.mints[acc.raMint] != 6 then Some(InvalidRaMintDecimals)
      else if position.status != Active then Some(StakeAlreadyFinalized)
      else if s.now < position.unlockAt then Some(StakeNotReady)
      else if args.claimFeeRaMicros + args.netPayoutRaMicros > U64_MAX then Some(MathOverflow)
      else if args.claimFeeRaMicros + args.netPayoutRaMicros != args.rewardGrossRaMicros then Some(InvalidClaimSettlement)
      else if args.rewardGrossRaMicros != position.finalRaPayoutMicros then Some(InvalidClaimSettlement)
      else None
  }

  function ClaimStakePosition(s: State, acc: ClaimAccounts, args: ClaimArgs): Result<State, Error> {
    var check := ClaimChecks(s, acc, args);
    if check.Some? then Failure(check.value)
    else
      var moved := TransferChecked(s.ledger, s.mints, acc.rewardVault, acc.raMint, acc.userRewardAta, PoolConfigPda,
                                   args.netPayoutRaMicros, s.mints[acc.raMint]);
      if moved.Failure? then Failure(moved.error)
      else
        var key := PositionKey(acc.owner, acc.sessionSeed);
        Success(s.(ledger := moved.value,
                   positions := s.positions[key := s.positions[key].(status := Claimed, claimedAt := s.now)]))
  }

  function InitializeGlobalConfig(s: State, config: GlobalConfig): Result<State, Error> {
    if s.pool.Some? then Failure(AccountConstraint)
    else Success(s.(pool := Some(config.(paused := false))))
  }

  function UpdateGlobalConfig(s: State, authority: Owner, network: u8, vault: Address, mint: MintId, program: nat)
    : Result<State, Error>
  {
    if s.pool.None? || !authority.Wallet? then Failure(AccountConstraint)
    else if !s.pool.value.CanWrite(authority) then Failure(UnauthorizedAuthority)
    else Success(s.(pool := Some(s.pool.value.(activeNetwork := network, rewardVault := vault, raMint := mint,
                                               swapNodeProgram := program))))
  }

  function UpsertTokenStakeConfig(s: State, authority: Owner, mint: MintId, enabled: bool, min: u64, max: u64,
                                  aprBps: seq<u16>, version: nat): Result<State, Error>
  {
    if s.pool.None? || !authority.Wallet? || |aprBps| != 5 then Failure(AccountConstraint)
    else if !s.pool.value.CanWrite(authority) then Failure(UnauthorizedAuthority)
    else Success(s.(tokenConfigs := s.tokenConfigs[mint :=
           TokenStakeConfig(enabled, PoolConfigPda, mint, min, max, aprBps, version, s.now)]))
  }

  // ---------- swap-node instructions ----------

  function InitializeSwapNode(s: State, config: SwapNodeConfig): Result<State, Error> {
    if s.swap.Some? then Failure(AccountConstraint)
    else Success(s.(swap := Some(config.(paused := false))))
  }

  function UpdateSwapNodeConfig(s: State, authority: Owner, program: nat, mint: MintId, vault: Address): Result<State, Error> {
    if s.swap.None? || !authority.Wallet? then Failure(AccountConstraint)
    else if !s.swap.value.CanWrite(authority) then Failure(UnauthorizedAuthority)
    else Success(s.(swap := Some(s.swap.value.(stakePoolProgram := program, raMint := mint, stakeRewardVault := vault))))
  }

  datatype ApproveArgs = ApproveArgs(
    authority: Owner, inputMint: MintId, batchSeed: nat, approvedInputAmountRaw: u64, plannedRewardAmountRaw: u64)

  function ApproveFundingBatch(s: State, args: ApproveArgs): Result<State, Error> {
    var key := BatchKey(args.inputMint, args.batchSeed);
    if s.swap.None? || args.inputMint !in s.mints || key in s.batches || !args.authority.Wallet? then Failure(AccountConstraint)
    else if !s.swap.value.CanWrite(args.authority) then Failure(UnauthorizedAuthority)
    else if s.swap.value.paused then Failure(ProgramPaused)
    else if args.approvedInputAmountRaw < args.plannedRewardAmountRaw then Failure(InvalidFundingAmount)
    else Success(s.(batches := s.batches[key :=
           FundingBatch(Approved, args.inputMint, s.swap.value.stakeRewardVault, args.authority, args.batchSeed,
                        args.approvedInputAmountRaw, args.plannedRewardAmountRaw, 0, s.now, 0, 0)]))
  }

  datatype ExecuteAccounts = ExecuteAccounts(
    authority: Owner, inputMint: MintId, batchSeed: nat, fundingSourceAta: Address,
    rewardVaultAuthority: Owner, rewardVault: Address)

  function ExecuteChecks(s: State, acc: ExecuteAccounts, funded: u64): (r: Option<Error>)
    ensures r.None? ==>
      && BatchKey(acc.inputMint, acc.batchSeed) in s.batches && acc.inputMint in s.mints && acc.authority.Wallet?
      && s.batches[BatchKey(acc.inputMint, acc.batchSeed)].status == Approved
      && 0 < funded <= s.batches[BatchKey(acc.inputMint, acc.batchSeed)].approvedInputAmountRaw
  {
    var key := BatchKey(acc.inputMint, acc.batchSeed);
    if s.swap.None? || acc.inputMint !in s.mints || key !in s.batches || !acc.authority.Wallet?
       || acc.fundingSourceAta !in s.ledger || acc.rewardVault !in s.ledger
    then Some(AccountConstraint)
    else
      var config, batch := s.swap.value, s.batches[key];
      var source, vault := s.ledger[acc.fundingSourceAta], s.ledger[acc.rewardVault];
      if !config.CanWrite(acc.authority) then Some(UnauthorizedAuthority)
      else if config.paused then Some(ProgramPaused)
      else if batch.status != Approved then Some(FundingBatchNotReady)
      else if batch.inputMint != acc.inputMint then Some(InvalidInputMint)
      else if config.raMint != acc.inputMint then Some(InvalidInputMint)
      else if batch.rewardVault != acc.rewardVault then Some(InvalidRewardVault)
      else if config.stakeRewardVault != acc.rewardVault then Some(InvalidRewardVault)
      else if source.owner != acc.authority then Some(InvalidFundingSourceAccount)
      else if source.mint != acc.inputMint then Some(InvalidFundingSourceAccount)
      else if vault.owner != acc.rewardVaultAuthority then Some(InvalidRewardVault)
      else if vault.mint != config.raMint then Some(InvalidRewardVault)
      else if s.mints[acc.inputMint] != 6 then Some(InvalidRaMintDecimals)
      else if !(0 < funded <= batch.approvedInputAmountRaw) then Some(InvalidFundingAmount)
      else None
  }

  function ExecuteFundingBatch(s: State, acc: ExecuteAccounts, funded: u64): Result<State, Error> {
    var check := ExecuteChecks(s, acc, funded);
    if check.Some? then Failure(check.value)
    else
      var moved := TransferChecked(s.ledger, s.mints, acc.fundingSourceAta, acc.inputMint, acc.rewardVault, acc.authority,
                                   funded, s.mints[acc.inputMint]);
      if moved.Failure? then Failure(moved.error)
      else
        var key := BatchKey(acc.inputMint, acc.batchSeed);
        Success(s.(ledger := moved.value,
                   batches := s.batches[key := s.batches[key].(status := Executed, fundedRewardAmountRaw := funded,
                                                               executedAt := s.now)]))
  }

  function CancelFundingBatch(s: State, authority: Owner, inputMint: MintId, batchSeed: nat): Result<State, Error> {
    var key := BatchKey(inputMint, batchSeed);
    if s.swap.None? || inputMint !in s.mints || key !in s.batches || !authority.Wallet? then Failure(AccountConstraint)
    else if !s.swap.value.CanWrite(authority) then Failure(UnauthorizedAuthority)
    else if s.batches[key].status != Approved then Failure(FundingBatchNotReady)
    else Success(s.(batches := s.batches[key := s.batches[key].(status := Cancelled, cancelledAt := s.now)]))
  }

  // ---------- runs ----------

  /** What happens on chain: the instructions of both programs, and what others do: token transfers
      signed by the owner, new token accounts and mints, the passing of time. */
  datatype Transaction =
    | TxInitializePool(config: GlobalConfig)
    | TxUpdatePool(authority: Owner, network: u8, vault: Address, mint: MintId, program: nat)
    | TxUpsertToken(authority: Owner, mint: MintId, enabled: bool, min: u64, max: u64, aprBps: seq<u16>, version: nat)
    | TxCreate(create: CreateAccounts, createArgs: CreateArgs)
    | TxClaim(claim: ClaimAccounts, claimArgs: ClaimArgs)
    | TxMigrate
    | TxInitializeSwap(swapConfig: SwapNodeConfig)
    | TxUpdateSwap(authority: Owner, program: nat, mint: MintId, vault: Address)
    | TxApprove(approve: ApproveArgs)
    | TxExecute(execute: ExecuteAccounts, funded: u64)
    | TxCancel(authority: Owner, inputMint: MintId, batchSeed: nat)
    | TxTransfer(signer: Owner, from: Address, transferMint: MintId, to: Address, amount: u64, decimals: u8)
    | TxOpenAccount(address: Address, accountOwner: Owner, accountMint: MintId)
    | TxCreateMint(newMint: MintId, newDecimals: u8)
    | TxTime(time: i64)

  function Process(s: State, tx: Transaction): Result<State, Error> {
    match tx
    case TxInitializePool(config) => InitializeGlobalConfig(s, config)
    case TxUpdatePool(authority, network, vault, mint, program) =>
      UpdateGlobalConfig(s, authority, network, vault, mint, program)
    case TxUpsertToken(authority, mint, enabled, min, max, aprBps, version) =>
      UpsertTokenStakeConfig(s, authority, mint, enabled, min, max, aprBps, version)
    case TxCreate(acc, args) => CreateStakePosition(s, acc, args)
    case TxClaim(acc, args) => ClaimStakePosition(s, acc, args)
    case TxMigrate => Success(s)
    case TxInitializeSwap(config) => InitializeSwapNode(s, config)
    case TxUpdateSwap(authority, program, mint, vault) => UpdateSwapNodeConfig(s, authority, program, mint, vault)
    case TxApprove(args) => ApproveFundingBatch(s, args)
    case TxExecute(acc, funded) => ExecuteFundingBatch(s, acc, funded)
    case TxCancel(authority, mint, seed) => CancelFundingBatch(s, authority, mint, seed)
    case TxTransfer(signer, from, mint, to, amount, decimals) =>
      if !signer.Wallet? then Failure(AccountConstraint)
      else
        var moved := TransferChecked(s.ledger, s.mints, from, mint, to, signer, amount, decimals);
        if moved.Failure? then Failure(moved.error) else Success(s.(ledger := moved.value))
    case TxOpenAccount(address, owner, mint) =>
      if address in s.ledger || mint !in s.mints then Failure(AccountConstraint)
      else Success(s.(ledger := s.ledger[address := TokenAccount(owner, mint, 0)]))
    case TxCreateMint(mint, decimals) =>
      if mint in s.mints then Failure(AccountConstraint) else Success(s.(mints := s.mints[mint := decimals]))
    case TxTime(time) => Success(s.(now := time))
  }

  /** A failed transaction changes nothing. */
  function Step(s: State, tx: Transaction): State {
    var r := Process(s, tx);
    if r.Success? then r.value else s
  }

  ghost function Run(s: State, txs: seq<Transaction>): State {
    if |txs| == 0 then s else Step(Run(s, txs[..|txs| - 1]), txs[|txs| - 1])
  }

  lemma RunSnoc(s: State, txs: seq<Transaction>, tx: Transaction)
    ensures Run(s, txs + [tx]) == Step(Run(s, txs), tx)
  {
    assert (txs + [tx])[..|txs|] == txs;
  }

  /** Before either program is initialised; the token world may already be populated. */
  ghost predicate Genesis(s: State) {
    && s.pool.None? && s.swap.None? && s.tokenConfigs == map[] && s.positions == map[] && s.batches == map[]
  }
}
