/** The account data both programs assign field by field. The history of a class object is a run of
    StakingPrograms, so that everything StakingSafety proves of runs holds of it: the invariants of positions,
    batches and configurations, the conservation of tokens, the balance of the vaults. Each method says besides when
    it succeeds, what it changes, and that a failure changes nothing; the checks come in the order of the require!
    macros, after the account constraints the framework enforces. Tokens move by a plain transfer between accounts
    of one mint. */
module StakingAccounts {
  import opened Wrappers
  import opened StakingPrograms
  import opened StakingSafety

  class Accounts {
    var now: i64
    var pool: Option<GlobalConfig>
    var tokenConfigs: map<MintId, TokenStakeConfig>
    var positions: map<PositionKey, StakePosition>
    var swap: Option<SwapNodeConfig>
    var batches: map<BatchKey, FundingBatch>
    var mints: map<MintId, u8>
    var ledger: TokenLedger
    ghost var genesis: State
    ghost var history: seq<Transaction>

    function Snapshot(): State
      reads this
    {
      State(now, pool, tokenConfigs, positions, swap, batches, mints, ledger)
    }

    /** The accounts are what the run so far made of the genesis state. */
    ghost predicate Valid()
      reads this
    {
      Genesis(genesis) && Snapshot() == Run(genesis, history)
    }

    constructor (now: i64, mints: map<MintId, u8>, ledger: TokenLedger)
      ensures Valid() && history == []
      ensures this.now == now && this.mints == mints && this.ledger == ledger
      ensures pool.None? && swap.None? && tokenConfigs == map[] && positions == map[] && batches == map[]
    {
      this.now, this.mints, this.ledger := now, mints, ledger;
      pool, tokenConfigs, positions, swap, batches := None, map[], map[], None, map[];
      genesis := State(now, None, map[], map[], None, map[], mints, ledger);
      history := [];
    }

    /** The step just taken is the next one of the run. */
    ghost method Record(tx: Transaction)
      requires Genesis(genesis) && Snapshot() == Step(Run(genesis, history), tx)
      modifies `history
      ensures history == old(history) + [tx] && Valid()
    {
      RunSnoc(genesis, history, tx);
      history := history + [tx];
    }

    method SetClock(time: i64)
      requires Valid()
      modifies `now, `history
      ensures Valid() && history == old(history) + [TxTime(time)]
      ensures now == time
    {
      now := time;
      Record(TxTime(time));
    }

    // ---------- the token program ----------

    /** transfer_checked: debit, then credit. */
    method Transfer(from: Address, mint: MintId, to: Address, authority: Owner, amount: u64, decimals: u8)
      returns (error: Option<Error>)
      modifies `ledger
      ensures TransferChecked(old(ledger), mints, from, mint, to, authority, amount, decimals)
              == (if error.None? then Success(ledger) else Failure(TransferFailed))
      ensures error.None? || (error == Some(TransferFailed) && ledger == old(ledger))
      ensures error.None? <==>
        && from in old(ledger) && to in old(ledger) && mint in mints && mints[mint] == decimals
        && old(ledger)[from].mint == mint && old(ledger)[to].mint == mint && old(ledger)[from].owner == authority
        && CanMove(old(ledger), from, to, amount)
      ensures error.None? ==> TokensMoved(old(ledger), ledger, from, to, amount)
    {
      if from !in ledger || to !in ledger || mint !in mints
         || ledger[from].mint != mint || ledger[to].mint != mint || mints[mint] != decimals
         || ledger[from].owner != authority || ledger[from].amount < amount
         || (from != to && ledger[to].amount + amount > U64_MAX)
      {
        return Some(TransferFailed);
      }
      if from != to {
        ledger := ledger[from := ledger[from].(amount := ledger[from].amount - amount)];
        ledger := ledger[to := ledger[to].(amount := ledger[to].amount + amount)];
      }
      return None;
    }

    // ---------- stake-pool ----------

    method InitializePool(config: GlobalConfig) returns (error: Option<Error>)
      requires Valid()
      modifies `pool, `history
      ensures Valid() && history == old(history) + [TxInitializePool(config)]
      ensures error.None? <==> old(pool).None?
      ensures error.None? ==> pool == Some(config.(paused := false))
      ensures error.Some? ==> pool == old(pool)
    {
      if pool.Some? {
        error := Some(AccountConstraint);
      } else {
        pool := Some(config.(paused := false));
        error := None;
      }
      Record(TxInitializePool(config));
    }

    /** Either authority replaces the four settings; who the authorities are, and the pause flag, never change. */
    method UpdatePool(authority: Owner, network: u8, vault: Address, mint: MintId, program: nat)
      returns (error: Option<Error>)
      requires Valid()
      modifies `pool, `history
      ensures Valid() && history == old(history) + [TxUpdatePool(authority, network, vault, mint, program)]
      ensures error.None? <==>
        && authority.Wallet? && old(pool).Some?
        && authority in {old(pool).value.operatorAuthority, old(pool).value.multisigAuthority}
      ensures error == Some(UnauthorizedAuthority) <==>
        && authority.Wallet? && old(pool).Some?
        && authority !in {old(pool).value.operatorAuthority, old(pool).value.multisigAuthority}
      ensures error.None? ==>
        && pool.Some? && pool.value.activeNetwork == network && pool.value.rewardVault == vault
        && pool.value.raMint == mint && pool.value.swapNodeProgram == program
      ensures old(pool).Some? ==>
        && pool.Some? && pool.value.operatorAuthority == old(pool).value.operatorAuthority
        && pool.value.multisigAuthority == old(pool).value.multisigAuthority && pool.value.paused == old(pool).value.paused
      ensures error.Some? ==> pool == old(pool)
    {
      if pool.None? || !authority.Wallet? {
        error := Some(AccountConstraint);
      } else if !pool.value.CanWrite(authority) {
        error := Some(UnauthorizedAuthority);
      } else {
        var config := pool.value;
        config := config.(activeNetwork := network);
        config := config.(rewardVault := vault);
        config := config.(raMint := mint);
        config := config.(swapNodeProgram := program);
        pool := Some(config);
        error := None;
      }
      Record(TxUpdatePool(authority, network, vault, mint, program));
    }

    /** Afterwards the token's rate for each period is the one given for it; other tokens keep theirs. */
    method UpsertToken(authority: Owner, mint: MintId, enabled: bool, min: u64, max: u64, aprBps: seq<u16>, version: nat)
      returns (error: Option<Error>)
      requires Valid()
      modifies `tokenConfigs, `history
      ensures Valid() && history == old(history) + [TxUpsertToken(authority, mint, enabled, min, max, aprBps, version)]
      ensures error.None? <==>
        && authority.Wallet? && pool.Some? && |aprBps| == 5
        && authority in {pool.value.operatorAuthority, pool.value.multisigAuthority}
      ensures error == Some(UnauthorizedAuthority) <==>
        && authority.Wallet? && pool.Some? && |aprBps| == 5
        && authority !in {pool.value.operatorAuthority, pool.value.multisigAuthority}
      ensures error.None? ==>
        && tokenConfigs.Keys == old(tokenConfigs).Keys + {mint} && GoodToken(mint, tokenConfigs[mint])
        && (forall i | 0 <= i < 5 :: tokenConfigs[mint].AprBpsForPeriod(PERIODS[i]) == Success(aprBps[i]))
        && tokenConfigs[mint].enabled == enabled && tokenConfigs[mint].updatedAt == now
        && tokenConfigs[mint].minStakeUsdMicros == min && tokenConfigs[mint].maxStakeUsdMicros == max
        && tokenConfigs[mint].configVersion == version
      ensures forall m | m in old(tokenConfigs) && (error.Some? || m != mint) ::
        m in tokenConfigs && tokenConfigs[m] == old(tokenConfigs)[m]
      ensures error.Some? ==> tokenConfigs == old(tokenConfigs)
    {
      if pool.None? || !authority.Wallet? || |aprBps| != 5 {
        error := Some(AccountConstraint);
      } else if !pool.value.CanWrite(authority) {
        error := Some(UnauthorizedAuthority);
      } else {
        tokenConfigs := tokenConfigs[mint :=
          TokenStakeConfig(enabled, PoolConfigPda, mint, min, max, aprBps, version, now)];
        error := None;
      }
      Record(TxUpsertToken(authority, mint, enabled, min, max, aprBps, version));
    }

    /** The stake moves into the swap node's vault and one position is added, active, with what was given. */
    method Create(acc: CreateAccounts, args: CreateArgs) returns (error: Option<Error>)
      requires Valid()
      modifies `ledger, `positions, `history
      ensures Valid() && history == old(history) + [TxCreate(acc, args)]
      ensures error.Some? ==> Process(old(Snapshot()), TxCreate(acc, args)) == Failure(error.value)
      ensures error.None? <==> CreateAllowed(old(Snapshot()), acc, args)
      ensures error.None? ==> TokensMoved(old(ledger), ledger, acc.userInputAta, acc.swapNodeVault, args.inputAmountRaw)
      ensures error.None? ==>
        var key := PositionKey(acc.owner, args.sessionSeed);
        && key !in old(positions) && key in positions && positions == old(positions)[key := positions[key]]
        && positions[key].status == Active && positions[key].claimedAt == 0
        && Remembers(positions[key], old(Snapshot()), acc, args)
      ensures error.Some? ==> ledger == old(ledger) && positions == old(positions)
    {
      error := CreateNow(acc, args);
      CreateSucceedsIff(genesis, history, acc, args);
      Record(TxCreate(acc, args));
    }

    method CreateNow(acc: CreateAccounts, args: CreateArgs) returns (error: Option<Error>)
      modifies `ledger, `positions
      ensures CreateStakePosition(old(Snapshot()), acc, args)
              == (if error.None? then Success(Snapshot()) else Failure(error.value))
      ensures error.None? ==> TokensMoved(old(ledger), ledger, acc.userInputAta, acc.swapNodeVault, args.inputAmountRaw)
      ensures error.None? ==>
        var key := PositionKey(acc.owner, args.sessionSeed);
        && key !in old(positions) && key in positions && positions == old(positions)[key := positions[key]]
        && positions[key].status == Active && positions[key].claimedAt == 0
        && Remembers(positions[key], old(Snapshot()), acc, args)
      ensures error.Some? ==> ledger == old(ledger) && positions == old(positions)
    {
      error := CreateRefused(acc, args);
      if error.Some? {
        return;
      }
      error := Transfer(acc.userInputAta, acc.inputMint, acc.swapNodeVault, acc.owner,
                        args.inputAmountRaw, args.inputTokenDecimals);
      if error.Some? {
        return;
      }
      positions := positions[PositionKey(acc.owner, args.sessionSeed) := StakePosition(
        status := Active, periodDays := args.periodDays, aprBps := args.aprBps, owner := acc.owner,
        globalConfig := PoolConfigPda, tokenConfig := acc.inputMint, inputMint := acc.inputMint,
        sessionSeed := args.sessionSeed, inputAmountRaw := args.inputAmountRaw,
        inputTokenDecimals := args.inputTokenDecimals, amountUiMicros := args.amountUiMicros,
        amountUsdMicros := args.amountUsdMicros, principalRaMicros := args.principalRaMicros,
        rewardRaMicros := args.rewardRaMicros, finalRaPayoutMicros := args.finalRaPayoutMicros,
        startedAt := now, unlockAt := args.unlockAt, claimedAt := 0)];
    }

    /** The require! ladder of create_stake_position. */
    method CreateRefused(acc: CreateAccounts, args: CreateArgs) returns (error: Option<Error>)
      ensures error == CreateChecks(Snapshot(), acc, args)
    {
      if pool.None? || acc.inputMint !in tokenConfigs || acc.inputMint !in mints
         || PositionKey(acc.owner, args.sessionSeed) in positions || !acc.owner.Wallet?
         || acc.userInputAta !in ledger || acc.swapNodeVault !in ledger || acc.rewardVault !in ledger
      {
        return Some(AccountConstraint);
      }
      var config, token := pool.value, tokenConfigs[acc.inputMint];
      if config.paused { return Some(ProgramPaused); }
      if !token.enabled { return Some(TokenDisabled); }
      if token.globalConfig != PoolConfigPda { return Some(InvalidGlobalConfig); }
      if token.tokenMint != acc.inputMint { return Some(InvalidInputMint); }
      if config.rewardVault != acc.rewardVault { return Some(InvalidRewardVault); }
      if config.swapNodeProgram != acc.swapNodeProgram { return Some(InvalidSwapNodeProgram); }
      if ledger[acc.userInputAta].owner != acc.owner { return Some(InvalidUserInputAccount); }
      if ledger[acc.userInputAta].mint != acc.inputMint { return Some(InvalidUserInputAccount); }
      if ledger[acc.swapNodeVault].owner != acc.swapNodeVaultAuthority { return Some(InvalidSwapNodeVault); }
      if ledger[acc.swapNodeVault].mint != acc.inputMint { return Some(InvalidSwapNodeVault); }
      if ledger[acc.rewardVault].owner != PoolConfigPda { return Some(InvalidRewardVault); }
      if ledger[acc.rewardVault].mint != config.raMint { return Some(InvalidRewardVault); }
      if args.amountUsdMicros < token.minStakeUsdMicros { return Some(BelowMinimumStake); }
      if args.amountUsdMicros > token.maxStakeUsdMicros { return Some(AboveMaximumStake); }
      if |token.aprBps| != 5 { return Some(AccountConstraint); }
      var expectedApr := token.AprBpsForPeriod(args.periodDays);
      if expectedApr.Failure? { return Some(expectedApr.error); }
      if args.aprBps != expectedApr.value { return Some(InvalidAprSnapshot); }
      var expectedFinal := args.principalRaMicros + args.rewardRaMicros;
      if expectedFinal > U64_MAX { return Some(MathOverflow); }
      if expectedFinal != args.finalRaPayoutMicros { return Some(InvalidPayoutSnapshot); }
      if args.unlockAt <= now { return Some(InvalidUnlockAt); }
      return None;
    }

    /** The net payout moves to the owner and the position becomes claimed, now; nothing else of it changes. */
    method Claim(acc: ClaimAccounts, args: ClaimArgs) returns (error: Option<Error>)
      requires Valid()
      modifies `ledger, `positions, `history
      ensures Valid() && history == old(history) + [TxClaim(acc, args)]
      ensures error.Some? ==> Process(old(Snapshot()), TxClaim(acc, args)) == Failure(error.value)
      ensures error.None? <==> ClaimAllowed(old(Snapshot()), acc, args)
      ensures error.None? ==> TokensMoved(old(ledger), ledger, acc.rewardVault, acc.userRewardAta, args.netPayoutRaMicros)
      ensures error.None? ==>
        var key := PositionKey(acc.owner, acc.sessionSeed);
        && key in old(positions) && key in positions && positions == old(positions)[key := positions[key]]
        && positions[key].status == Claimed && positions[key].claimedAt == now
        && PositionEvolves(old(positions)[key], positions[key])
      ensures error.Some? ==> ledger == old(ledger) && positions == old(positions)
    {
      error := ClaimNow(acc, args);
      ClaimSucceedsIff(genesis, history, acc, args);
      Record(TxClaim(acc, args));
    }

    method ClaimNow(acc: ClaimAccounts, args: ClaimArgs) returns (error: Option<Error>)
      modifies `ledger, `positions
      ensures ClaimStakePosition(old(Snapshot()), acc, args)
              == (if error.None? then Success(Snapshot()) else Failure(error.value))
      ensures error.None? ==> TokensMoved(old(ledger), ledger, acc.rewardVault, acc.userRewardAta, args.netPayoutRaMicros)
      ensures error.None? ==>
        var key := PositionKey(acc.owner, acc.sessionSeed);
        && key in old(positions) && key in positions && positions == old(positions)[key := positions[key]]
        && positions[key].status == Claimed && positions[key].claimedAt == now
        && PositionEvolves(old(positions)[key], positions[key])
      ensures error.Some? ==> ledger == old(ledger) && positions == old(positions)
    {
      error := ClaimRefused(acc, args);
      if error.Some? {
        return;
      }
      error := Transfer(acc.rewardVault, acc.raMint, acc.userRewardAta, PoolConfigPda,
                        args.netPayoutRaMicros, mints[acc.raMint]);
      if error.Some? {
        return;
      }
      var key := PositionKey(acc.owner, acc.sessionSeed);
      positions := positions[key := positions[key].(status := Claimed)];
      positions := positions[key := positions[key].(claimedAt := now)];
      assert positions == old(positions)[key := positions[key]];
    }

    /** The account constraints and the require! ladder of claim_stake_position. */
    method ClaimRefused(acc: ClaimAccounts, args: ClaimArgs) returns (error: Option<Error>)
      ensures error == ClaimChecks(Snapshot(), acc, args)
    {
      var key := PositionKey(acc.owner, acc.sessionSeed);
      if pool.None? || key !in positions || acc.raMint !in mints || !acc.owner.Wallet?
         || acc.rewardVault !in ledger || acc.userRewardAta !in ledger
      {
        return Some(AccountConstraint);
      }
      var config, position := pool.value, positions[key];
      if position.owner != acc.owner { return Some(UnauthorizedOwner); }
      if position.globalConfig != PoolConfigPda { return Some(InvalidGlobalConfig); }
      if config.rewardVault != acc.rewardVault { return Some(InvalidRewardVault); }
      if config.raMint != acc.raMint { return Some(InvalidRaMint); }
      if ledger[acc.rewardVault].owner != PoolConfigPda { return Some(InvalidRewardVault); }
      if ledger[acc.rewardVault].mint != acc.raMint { return Some(InvalidRewardVault); }
      if ledger[acc.userRewardAta].owner != acc.owner { return Some(InvalidUserRewardAccount); }
      if ledger[acc.userRewardAta].mint != acc.raMint { return Some(InvalidUserRewardAccount); }
      if mints[acc.raMint] != 6 { return Some(InvalidRaMintDecimals); }
      if position.status != Active { return Some(StakeAlreadyFinalized); }
      if now < position.unlockAt { return Some(StakeNotReady); }
      var settled := args.claimFeeRaMicros + args.netPayoutRaMicros;
      if settled > U64_MAX { return Some(MathOverflow); }
      if settled != args.rewardGrossRaMicros { return Some(InvalidClaimSettlement); }
      if args.rewardGrossRaMicros != position.finalRaPayoutMicros { return Some(InvalidClaimSettlement); }
      return None;
    }

    // ---------- swap-node ----------

    method InitializeSwap(config: SwapNodeConfig) returns (error: Option<Error>)
      requires Valid()
      modifies `swap, `history
      ensures Valid() && history == old(history) + [TxInitializeSwap(config)]
      ensures error.None? <==> old(swap).None?
      ensures error.None? ==> swap == Some(config.(paused := false))
      ensures error.Some? ==> swap == old(swap)
    {
      if swap.Some? {
        error := Some(AccountConstraint);
      } else {
        swap := Some(config.(paused := false));
        error := None;
      }
      Record(TxInitializeSwap(config));
    }

    /** Either authority replaces the three settings; who the authorities are, and the pause flag, never change. */
    method UpdateSwap(authority: Owner, program: nat, mint: MintId, vault: Address) returns (error: Option<Error>)
      requires Valid()
      modifies `swap, `history
      ensures Valid() && history == old(history) + [TxUpdateSwap(authority, program, mint, vault)]
      ensures error.None? <==>
        && authority.Wallet? && old(swap).Some?
        && authority in {old(swap).value.operatorAuthority, old(swap).value.multisigAuthority}
      ensures error == Some(UnauthorizedAuthority) <==>
        && authority.Wallet? && old(swap).Some?
        && authority !in {old(swap).value.operatorAuthority, old(swap).value.multisigAuthority}
      ensures error.None? ==>
        swap.Some? && swap.value.stakePoolProgram == program && swap.value.raMint == mint && swap.value.stakeRewardVault == vault
      ensures old(swap).Some? ==>
        && swap.Some? && swap.value.operatorAuthority == old(swap).value.operatorAuthority
        && swap.value.multisigAuthority == old(swap).value.multisigAuthority && swap.value.paused == old(swap).value.paused
      ensures error.Some? ==> swap == old(swap)
    {
      if swap.None? || !authority.Wallet? {
        error := Some(AccountConstraint);
      } else if !swap.value.CanWrite(authority) {
        error := Some(UnauthorizedAuthority);
      } else {
        var config := swap.value;
        config := config.(stakePoolProgram := program);
        config := config.(raMint := mint);
        config := config.(stakeRewardVault := vault);
        swap := Some(config);
        error := None;
      }
      Record(TxUpdateSwap(authority, program, mint, vault));
    }

    /** One batch is added, approved and not funded, for the vault configured at this moment. */
    method Approve(args: ApproveArgs) returns (error: Option<Error>)
      requires Valid()
      modifies `batches, `history
      ensures Valid() && history == old(history) + [TxApprove(args)]
      ensures
        var key := BatchKey(args.inputMint, args.batchSeed);
        error.None? <==>
          && args.authority.Wallet? && swap.Some? && args.inputMint in mints && key !in old(batches)
          && args.authority in {swap.value.operatorAuthority, swap.value.multisigAuthority}
          && args.plannedRewardAmountRaw <= args.approvedInputAmountRaw
      ensures error.None? ==>
        var key := BatchKey(args.inputMint, args.batchSeed);
        && key in batches && batches == old(batches)[key := batches[key]] && GoodBatch(key, batches[key])
        && batches[key].status == Approved && batches[key].rewardVault == swap.value.stakeRewardVault
        && batches[key].operatorAuthority == args.authority && batches[key].createdAt == now
        && batches[key].fundedRewardAmountRaw == 0 && batches[key].executedAt == 0 && batches[key].cancelledAt == 0
        && batches[key].approvedInputAmountRaw == args.approvedInputAmountRaw
        && batches[key].plannedRewardAmountRaw == args.plannedRewardAmountRaw
      ensures error.Some? ==> batches == old(batches)
    {
      ReachableInv(genesis, history);
      var key := BatchKey(args.inputMint, args.batchSeed);
      if swap.None? || args.inputMint !in mints || key in batches || !args.authority.Wallet? {
        error := Some(AccountConstraint);
      } else if !swap.value.CanWrite(args.authority) {
        error := Some(UnauthorizedAuthority);
      } else if swap.value.paused {
        error := Some(ProgramPaused);
      } else if args.approvedInputAmountRaw < args.plannedRewardAmountRaw {
        error := Some(InvalidFundingAmount);
      } else {
        batches := batches[key := FundingBatch(
          status := Approved, inputMint := args.inputMint, rewardVault := swap.value.stakeRewardVault,
          operatorAuthority := args.authority, batchSeed := args.batchSeed,
          approvedInputAmountRaw := args.approvedInputAmountRaw, plannedRewardAmountRaw := args.plannedRewardAmountRaw,
          fundedRewardAmountRaw := 0, createdAt := now, executedAt := 0, cancelledAt := 0)];
        error := None;
      }
      Record(TxApprove(args));
    }

    /** The funds move into the vault and the batch becomes executed, now, with their amount. */
    method Execute(acc: ExecuteAccounts, funded: u64) returns (error: Option<Error>)
      requires Valid()
      modifies `ledger, `batches, `history
      ensures Valid() && history == old(history) + [TxExecute(acc, funded)]
      ensures error.Some? ==> Process(old(Snapshot()), TxExecute(acc, funded)) == Failure(error.value)
      ensures error.None? <==> ExecuteAllowed(old(Snapshot()), acc, funded)
      ensures error.None? ==> TokensMoved(old(ledger), ledger, acc.fundingSourceAta, acc.rewardVault, funded)
      ensures error.None? ==>
        var key := BatchKey(acc.inputMint, acc.batchSeed);
        && key in old(batches) && key in batches && batches == old(batches)[key := batches[key]]
        && batches[key].status == Executed && batches[key].fundedRewardAmountRaw == funded && batches[key].executedAt == now
        && BatchEvolves(old(batches)[key], batches[key])
      ensures error.Some? ==> ledger == old(ledger) && batches == old(batches)
    {
      error := ExecuteNow(acc, funded);
      ExecuteSucceedsIff(genesis, history, acc, funded);
      Record(TxExecute(acc, funded));
    }

    method ExecuteNow(acc: ExecuteAccounts, funded: u64) returns (error: Option<Error>)
      modifies `ledger, `batches
      ensures ExecuteFundingBatch(old(Snapshot()), acc, funded)
              == (if error.None? then Success(Snapshot()) else Failure(error.value))
      ensures error.None? ==> TokensMoved(old(ledger), ledger, acc.fundingSourceAta, acc.rewardVault, funded)
      ensures error.None? ==>
        var key := BatchKey(acc.inputMint, acc.batchSeed);
        && key in old(batches) && key in batches && batches == old(batches)[key := batches[key]]
        && batches[key].status == Executed && batches[key].fundedRewardAmountRaw == funded && batches[key].executedAt == now
        && BatchEvolves(old(batches)[key], batches[key])
      ensures error.Some? ==> ledger == old(ledger) && batches == old(batches)
    {
      error := ExecuteRefused(acc, funded);
      if error.Some? {
        return;
      }
      error := Transfer(acc.fundingSourceAta, acc.inputMint, acc.rewardVault, acc.authority, funded, mints[acc.inputMint]);
      if error.Some? {
        return;
      }
      var key := BatchKey(acc.inputMint, acc.batchSeed);
      batches := batches[key := batches[key].(status := Executed)];
      batches := batches[key := batches[key].(fundedRewardAmountRaw := funded)];
      batches := batches[key := batches[key].(executedAt := now)];
      assert batches == old(batches)[key := batches[key]];
    }

    /** The account constraints and the require! ladder of execute_funding_batch. */
    method ExecuteRefused(acc: ExecuteAccounts, funded: u64) returns (error: Option<Error>)
      ensures error == ExecuteChecks(Snapshot(), acc, funded)
    {
      var key := BatchKey(acc.inputMint, acc.batchSeed);
      if swap.None? || acc.inputMint !in mints || key !in batches || !acc.authority.Wallet?
         || acc.fundingSourceAta !in ledger || acc.rewardVault !in ledger
      {
        return Some(AccountConstraint);
      }
      var config, batch := swap.value, batches[key];
      if !config.CanWrite(acc.authority) { return Some(UnauthorizedAuthority); }
      if config.paused { return Some(ProgramPaused); }
      if batch.status != Approved { return Some(FundingBatchNotReady); }
      if batch.inputMint != acc.inputMint { return Some(InvalidInputMint); }
      if config.raMint != acc.inputMint { return Some(InvalidInputMint); }
      if batch.rewardVault != acc.rewardVault { return Some(InvalidRewardVault); }
      if config.stakeRewardVault != acc.rewardVault { return Some(InvalidRewardVault); }
      if ledger[acc.fundingSourceAta].owner != acc.authority { return Some(InvalidFundingSourceAccount); }
      if ledger[acc.fundingSourceAta].mint != acc.inputMint { return Some(InvalidFundingSourceAccount); }
      if ledger[acc.rewardVault].owner != acc.rewardVaultAuthority { return Some(InvalidRewardVault); }
      if ledger[acc.rewardVault].mint != config.raMint { return Some(InvalidRewardVault); }
      if mints[acc.inputMint] != 6 { return Some(InvalidRaMintDecimals); }
      if funded == 0 || funded > batch.approvedInputAmountRaw { return Some(InvalidFundingAmount); }
      return None;
    }

    /** The batch becomes cancelled, now, and stays unfunded; nothing else of it changes. */
    method Cancel(authority: Owner, inputMint: MintId, batchSeed: nat) returns (error: Option<Error>)
      requires Valid()
      modifies `batches, `history
      ensures Valid() && history == old(history) + [TxCancel(authority, inputMint, batchSeed)]
      ensures
        var key := BatchKey(inputMint, batchSeed);
        error.None? <==>
          && authority.Wallet? && swap.Some? && inputMint in mints
          && key in old(batches) && old(batches)[key].status == Approved
          && authority in {swap.value.operatorAuthority, swap.value.multisigAuthority}
      ensures error.None? ==>
        var key := BatchKey(inputMint, batchSeed);
        && key in batches && batches == old(batches)[key := batches[key]] && GoodBatch(key, batches[key])
        && batches[key].status == Cancelled && batches[key].cancelledAt == now && batches[key].fundedRewardAmountRaw == 0
        && BatchEvolves(old(batches)[key], batches[key])
      ensures error.Some? ==> batches == old(batches)
    {
      ReachableInv(genesis, history);
      var key := BatchKey(inputMint, batchSeed);
      if swap.None? || inputMint !in mints || key !in batches || !authority.Wallet? {
        error := Some(AccountConstraint);
      } else if !swap.value.CanWrite(authority) {
        error := Some(UnauthorizedAuthority);
      } else if batches[key].status != Approved {
        error := Some(FundingBatchNotReady);
      } else {
        batches := batches[key := batches[key].(status := Cancelled)];
        batches := batches[key := batches[key].(cancelledAt := now)];
        error := None;
      }
      Record(TxCancel(authority, inputMint, batchSeed));
    }
  }
}
