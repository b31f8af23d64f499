# Solera: verified models of the stateful core

A Dafny project that models the parts of Solera that keep state over time, convert between representations,
or run concurrently, and proves what their users rely on. `dafny verify dfyconfig.toml` checks all of it.

| file | what it models |
|---|---|
| `Ohlc.dfy` (with `SortedSets.dfy`) | price snapshots folded into stored 1m, 5m and 15m bars; the 1h and 4h bars rolled up from them by a query with a lookback window and a LIMIT |
| `Base58.dfy` (with `Radix.dfy`) | the two in-place radix conversions of the Base58 codec, and the wallet address check |
| `StakingPrograms.dfy`, `StakingSafety.dfy`, `StakingAccounts.dfy` (with `Sums.dfy`) | the stake-pool and swap-node programs and the token ledger as one transition system; the account data as a class |
| `RateLimit.dfy` (with `FixedWindow.dfy`) | the in-memory store, the Upstash commands and the Redis script of the rate limiter as interleaved steps, and the failover wrapper |
| `Sessions.dfy`, `SessionOutcomes.dfy`, `SessionStore.dfy` | wallet sessions and the denormalised session-time total of each user; what each method leaves in every row; the tables as a class |
| `ExplorerFeed.dfy` | keyset pagination of the explorer feed |
| `WorkerPool.dfy` | `mapWithConcurrency`, as an interleaving of its runners |
| `Challenges.dfy` | the login challenges shared by the two verifiers |
| `Convert.dfy` | the execution of a conversion session and its replay |
| `DocsSlugs.dfy`, `DocsSections.dfy` | slugs and the unique anchors of documentation sections |
| `RawAmounts.dfy` | token amounts as raw integers, through the decimal text of `toFixed` |
| `Arithmetic.dfy`, `FiniteSets.dfy`, `Numbers.dfy`, `Text.dfy`, `Wrappers.dfy` | shared arithmetic, finite sets, numbers and text helpers, `Option` and `Result` |

Conventions. Database tables are maps, and each committed transaction is one step. Clock readings, query results
whose order the database does not promise, generated ids, random nonces and what happens on chain are parameters,
arbitrary unless a hypothesis says otherwise. Prices and volumes are integers (the columns are fixed point). Where a
service updates rows or fields in place, a class does the same, and every method is tied to a specification function
on values; the properties of runs are proved about those functions. In the rate limiter and the challenge protocol the
clock does not go back.

Where a promised property does not hold for every input, the exact condition is proved together with an input that
shows the failure:

- `Ohlc.RollUpMatches` and, over all prices, `Ohlc.RollUpExactForAllPrices`: the rolled open and close are the true
  ones exactly when the first and the last snapshot to arrive carry the prices of the earliest and the latest fine
  bucket's ends. `Ohlc.LateSnapshotChangesClose` and, for `Ohlc.StoredBarsNest`, `Ohlc.LateSnapshotBreaksNesting`
  are two polls four seconds apart, with the polling interval raised between them, that do not meet it.
- `RateLimit.BlockedForeverIff`: a reachable store never admits a newcomer again exactly when max is below 1 or its key
  has no expiry and counts max calls. `RateLimit.StuckReachable` reaches such a key under every policy.
- `Sessions.BlockTakesOffline` and `Sessions.SweepLeavesNoneStale`: exactly up to 500 sessions.
  `Sessions.BlockLeavesOneOpen` and `Sessions.SweepLeavesOneStale` are a run that opens 501.
- `Convert.ReplayAgrees`: exactly when no unsigned leg held something from an earlier request, which
  `Convert.AbortThenReplayDisagrees` produces.
- `Base58.BytesRoundTrip` (not for n > 0 zero bytes) and `RawAmounts.RawAmountExact` (not from 10^21 on).

## Model

| member | source | states |
|---|---|---|
| Ohlc.BucketBounds | apps/api/src/ohlc/ohlc.service.ts:681-684 | a timestamp lies in the bucket the upsert files it under |
| Ohlc.NestedBuckets | apps/api/src/ohlc/ohlc-persistence.service.ts:362-365 | flooring a fine bucket's start to a coarser interval gives the coarse bucket of every time in it |
| Ohlc.BatchBar | apps/api/src/ohlc/ohlc.service.ts:679-700 | the aggregate of a bucket computed from all its snapshots at once has low <= open, close <= high |
| Ohlc.UpsertedAllAt | apps/api/src/ohlc/ohlc-persistence.service.ts:299-301 | the loop over the stored intervals changes exactly the snapshot's own bucket at each interval, once |
| Ohlc.StoredBarsAreAggregates | apps/api/src/ohlc/ohlc.service.ts:662-714 | after any committed snapshots, in any time order, the stored bar of every bucket is the first, highest, lowest, last, total and count of that bucket's snapshots, and only buckets that have snapshots have a bar |
| Ohlc.OhlcStore.UpsertBar | apps/api/src/ohlc/ohlc.service.ts:662-714 | the in-place upsert inserts the fresh bar or merges into the stored one, and changes no other row |
| Ohlc.OhlcStore.PersistSnapshot | apps/api/src/ohlc/ohlc-persistence.service.ts:272-310 | whichever statement fails, nothing changes; when none does, one more snapshot is in the log whose replay the bar table is |
| Ohlc.TicksAreLatest | apps/api/src/ohlc/ohlc-persistence.service.ts:282-298 | the tick of a pair and a time holds the two prices and the volume of the last committed snapshot with them |
| Ohlc.RollUpMatches | apps/api/src/ohlc/ohlc-persistence.service.ts:359-420 | rolling a complete group of stored bars up gives, for every arrival order, a bar exactly when there are snapshots, with their true high, low and volume; its open and close are the first and last price to arrive exactly when those equal the first price of the earliest and the last price of the latest fine bucket |
| Ohlc.RolledEnds | apps/api/src/ohlc/ohlc-persistence.service.ts:377-405 | for every arrival order the rolled open is the first price to arrive in the earliest fine bucket, the rolled close the last one in the latest |
| Ohlc.RollUpExactForAllPrices | apps/api/src/ohlc/ohlc-persistence.service.ts:359-420 | for given timestamps the roll-up is exact whatever the prices are exactly when the first snapshot of the bucket to arrive is in its earliest fine bucket and the last one in its latest |
| Ohlc.InOrderRollsUp | apps/api/src/ohlc/ohlc-persistence.service.ts:359-420 | in particular it is exact for snapshots that arrive in order |
| Ohlc.WindowMatches | apps/api/src/ohlc/ohlc-persistence.service.ts:374-400 | wherever the lookback cuts a bucket, what is rolled up is exactly the bucket's snapshots whose fine bucket starts in the window, in the sense of RollUpMatches |
| Ohlc.TimesInOrder | apps/api/src/ohlc/ohlc-persistence.service.ts:359-420 | non-decreasing timestamps are in order for every interval |
| Ohlc.AggregatedBarsComplete | apps/api/src/ohlc/ohlc-persistence.service.ts:347-420 | the query answers from the snapshots whose 15m bucket starts within the last interval * limit + 900 seconds and from nothing older: a bar for each bucket that has some, the latest limit of them, ascending, each rolling up those snapshots; a bucket that starts inside that time is there as a whole, and only the oldest returned one can start before it |
| Ohlc.OldBarsNotReturned | apps/api/src/ohlc/ohlc-persistence.service.ts:354-378 | a pair whose 15m bars are all older gets no bar |
| Ohlc.LatestBucketsReturned | apps/api/src/ohlc/ohlc-persistence.service.ts:347-420 | when the latest limit buckets are all non-empty, exactly those are returned, none truncated, each the bucket's aggregate exactly when its ends agree |
| Ohlc.StoredBarsReturned | apps/api/src/ohlc/ohlc-persistence.service.ts:312-345 | the stored-bar query returns the latest limit non-empty buckets in ascending order, each the aggregate of its snapshots |
| Ohlc.StoredBarsNest | apps/api/src/ohlc/ohlc-persistence.service.ts:299-301 | for every arrival order there is a stored 5m or 15m bar exactly when there are 1m bars to roll up, with the same high, low and volume, and with the same open and close exactly when the ends agree |
| Ohlc.TicksInOrder | apps/api/src/ohlc/ohlc.service.ts:558-562 | at a fixed polling interval tick times do not go back |
| Ohlc.TickOnGrid | apps/api/src/ohlc/ohlc.service.ts:558-562 | a tick is the last multiple of the polling interval, taken as at least five seconds, that is not after the poll |
| Ohlc.LongerPollGoesBack | apps/api/src/ohlc/ohlc.service.ts:558-562 | raising the polling interval between two polls can send the tick time back into an earlier minute, and an earlier quarter of an hour |
| Ohlc.TickFallsBackLittle | apps/api/src/ohlc/ohlc.service.ts:558-562 | but never by as much as the longest polling interval |
| Ohlc.LateSnapshotChangesClose | apps/api/src/ohlc/ohlc-persistence.service.ts:377-405 | with the two snapshots of such polls the rolled 1h close is 20, while the last price to arrive is 10 |
| Ohlc.LateSnapshotBreaksNesting | apps/api/src/ohlc/ohlc-persistence.service.ts:299-301 | likewise a stored 5m bar closes at 10, and the roll-up of its 1m bars at 20 |
| Ohlc.ClampLimit | apps/api/src/ohlc/ohlc.service.ts:413-416 | a requested limit is cut to a whole number between 1 and 2000, is 1 between 0 and 1, and 300 when it is no positive number |
| Base58.BytesRoundTrip | apps/api/src/common/base58.ts:8-84 | decoding undoes encoding exactly for byte arrays that are empty or have a non-zero byte; n zero bytes come back as n + 2 |
| Base58.TextRoundTrip | apps/api/src/common/base58.ts:8-84 | decoding fails exactly on a character outside the alphabet; otherwise encoding gives the trimmed text back exactly when it is empty or has a character other than '1' |
| Base58.EncodingInjective | apps/api/src/common/base58.ts:8-39 | no two byte arrays share a text |
| Base58.EncodeBase58 | apps/api/src/common/base58.ts:8-39 | the in-place loops compute the radix-58 digits of the value with the leading zeros kept |
| Base58.AbsorbByte | apps/api/src/common/base58.ts:14-26 | one byte turns the digit array into the digits of value * 256 + byte |
| Base58.KeepCarrying | apps/api/src/common/base58.ts:16-20 | in the inner loops of both directions the carry stays below the multiplier (256 in encode, 58 in decode) and the weighted total is kept |
| Base58.DecodeBase58 | apps/api/src/common/base58.ts:41-84 | the in-place loops compute the bytes of the value with a zero for every leading '1', or the error |
| Base58.AbsorbChar | apps/api/src/common/base58.ts:54-64 | one character turns the byte array into the bytes of value * 58 + digit |
| Base58.MaskExact | apps/api/src/common/base58.ts:57-63 | within 31 bits the mask and the shift are remainder and quotient by 256 |
| Base58.BigEndian | apps/api/src/common/base58.ts:75-83 | the result array holds the zeros, then the bytes, most significant first |
| Base58.EncodedKeyAccepted | apps/api/src/users/users.utils.ts:5-17 | every 32-byte key has a text of 32 to 44 characters, and the wallet address check accepts it unchanged |
| Base58.NormalizeWalletAddress | apps/api/src/users/users.utils.ts:5-17 | an address is required exactly when nothing is left after trimming, and accepted exactly with 32 to 44 characters of the pattern's class |
| Base58.AlphabetRises | apps/api/src/common/base58.ts:1-6 | the alphabet is the characters of that class in the order of their codes |
| Text.TrimCuts | apps/api/src/common/base58.ts:42 | trimming cuts white space off at both ends, all of it and nothing else |
| Base58.KeyFits | apps/api/src/users/users.utils.ts:11 | 256^32 <= 58^44 |
| StakingPrograms.TransferConserves | programs/stake-pool/src/lib.rs:160-172 | a checked transfer leaves the supply of every mint alone |
| StakingPrograms.TokenStakeConfig.AprBpsForPeriod | programs/stake-pool/src/lib.rs:445-455 | exactly the five periods have a rate, the one at the period's place |
| StakingSafety.ReachableInv | programs/stake-pool/src/lib.rs:144-196 | in every reachable state of both programs: a position's owner and seed match its address, its payout is principal plus reward within 64 bits, it unlocks after it started, and it is active and unclaimed or claimed no earlier than its unlock; a batch plans no more than was approved, and has funded something within that exactly when it is executed |
| StakingSafety.RunEvolves | programs/swap-node/src/lib.rs:101-184 | along every run a position changes only from active to claimed, a batch leaves approved at most once, and a token account keeps owner and mint |
| StakingSafety.PositionsRemember | programs/stake-pool/src/lib.rs:81-197 | every position of every reachable state holds what one earlier creation recorded: every argument as it was given, the clock, and a rate that was the configured one for that period, an amount within the token's limits |
| StakingSafety.DeadChecks | programs/stake-pool/src/lib.rs:89-104 | no run reaches a state in which the pause checks, or the checks of stored keys against addresses, fail |
| StakingSafety.TokensConserved | programs/stake-pool/src/lib.rs:160-172 | over every run the supply of every mint is constant |
| StakingSafety.PaidOnce | programs/stake-pool/src/lib.rs:237-275 | the settlements of a run are its claimed positions, one each; none pays more than its position promised, and together they pay no more than those positions promised |
| StakingSafety.VaultBalance | programs/stake-pool/src/lib.rs:256-272 | a vault owned by the pool's configuration account holds its initial balance plus all inflows minus the settlements paid from it |
| StakingSafety.CreateSucceedsIff | programs/stake-pool/src/lib.rs:81-172 | when a stake is accepted, in every reachable state |
| StakingSafety.ClaimSucceedsIff | programs/stake-pool/src/lib.rs:199-276 | when a claim settles, in every reachable state |
| StakingSafety.DuePositionSettles | programs/stake-pool/src/lib.rs:199-276 | in every reachable state a due active position settles, once the vault can pay and its owner's account can take it, exactly for a fee and a net payout that add up to what it promised |
| StakingSafety.ExecuteSucceedsIff | programs/swap-node/src/lib.rs:89-169 | when a funding batch executes, in every reachable state |
| StakingSafety.CreateRefusedFor | programs/stake-pool/src/lib.rs:81-172 | the error of a refused stake names something that is wrong with it |
| StakingSafety.ClaimRefusedFor | programs/stake-pool/src/lib.rs:199-276 | the error of a refused claim names something that is wrong with it |
| StakingSafety.ExecuteRefusedFor | programs/swap-node/src/lib.rs:89-169 | the error of a refused funding names something that is wrong with it |
| StakingAccounts.Accounts.Transfer | programs/stake-pool/src/lib.rs:160-172 | succeeds exactly when both accounts hold the mint, the authority owns the source, and the amount is there and fits; then the amount leaves one account and reaches the other, and no other account changes |
| StakingAccounts.Accounts.Create | programs/stake-pool/src/lib.rs:81-197 | extends the object's run by one stake: it succeeds exactly on the acceptance conditions, and then the stake has moved into the swap node's vault and one new active, unclaimed position holds every argument as given, the clock, and the configured rate of its period; otherwise nothing changes |
| StakingAccounts.Accounts.Claim | programs/stake-pool/src/lib.rs:199-276 | extends the run by one claim: it succeeds exactly on the settlement conditions, and then the net payout has moved and the position alone has become claimed, at the clock reading; otherwise nothing changes |
| StakingAccounts.Accounts.UpdatePool | programs/stake-pool/src/lib.rs:38-53 | succeeds exactly for one of the two stored authorities; then the four settings are the given ones, while the authorities and the pause flag stay; otherwise nothing changes and the error says whether the authority was the reason |
| StakingAccounts.Accounts.InitializePool | programs/stake-pool/src/lib.rs:20-36 | succeeds exactly once, and starts unpaused |
| StakingAccounts.Accounts.UpsertToken | programs/stake-pool/src/lib.rs:55-79 | succeeds exactly for an authority with five rates; then the token's rate for each period is the one given for it, and every other token keeps its configuration; otherwise nothing changes |
| StakingAccounts.Accounts.Approve | programs/swap-node/src/lib.rs:56-87 | succeeds exactly for an authority, an unused key and a plan within the approval; then one unfunded batch is added, for the reward vault configured at that moment; otherwise nothing changes |
| StakingAccounts.Accounts.Execute | programs/swap-node/src/lib.rs:89-169 | extends the run by one execution: it succeeds exactly on the execution conditions, and then the funds have moved and the batch alone has become executed; otherwise nothing changes |
| StakingAccounts.Accounts.Cancel | programs/swap-node/src/lib.rs:171-186 | succeeds exactly for an authority on an approved batch; then that batch alone has become cancelled, at the clock reading, with nothing funded; otherwise nothing changes |
| StakingAccounts.Accounts.InitializeSwap | programs/swap-node/src/lib.rs:19-34 | succeeds exactly once, and starts unpaused |
| StakingAccounts.Accounts.UpdateSwap | programs/swap-node/src/lib.rs:36-50 | succeeds exactly for one of the two stored authorities; then the three settings are the given ones, while the authorities and the pause flag stay; otherwise nothing changes |
| RateLimit.InMemoryRateLimitStore.Consume | apps/api/src/common/rate-limit-store.ts:241-264 | one call opens a window or counts in the current one, and touches no other key |
| RateLimit.KeysIndependent | apps/api/src/common/rate-limit-store.ts:238-265 | a key's entry depends on that key's calls only |
| RateLimit.FirstMaxAdmitted | apps/api/src/common/rate-limit-store.ts:241-264 | each window admits exactly its first max calls |
| RateLimit.OpenerAlwaysAdmitted | apps/api/src/common/rate-limit-store.ts:246-254 | the call that opens a window passes whatever max is |
| RateLimit.MemoryTwiceMax | apps/api/src/common/rate-limit-store.ts:238-265 | at most 2 * max calls of a key pass in any interval of a window length |
| RateLimit.ScriptIsAnInterleaving | apps/api/src/common/rate-limit-store.ts:158-165 | the atomic script is one interleaving of the three separate commands |
| RateLimit.ScriptAnswers | apps/api/src/common/rate-limit-store.ts:158-165 | the caller gets the next place of the key's lifetime and passes exactly with one of the first max; the first place gives the key one window to live |
| RateLimit.FailsOver | apps/api/src/common/rate-limit-store.ts:267-283 | a call whose command is refused or whose answer is lost asks the in-memory store, which admits it exactly when it opens a window there or is among the first max of the current one |
| RateLimit.RunInv | apps/api/src/common/rate-limit-store.ts:123-151 | for every interleaving of INCR, PEXPIRE and PTTL, with answers lost and commands refused: places are given out once per lifetime of the key, and lifetimes are at least a window apart |
| RateLimit.PrimaryTwiceMax | apps/api/src/common/rate-limit-store.ts:123-151 | at most max calls pass per lifetime, and at most 2 * max in any interval of a window length |
| RateLimit.WrapperFourTimesMax | apps/api/src/common/rate-limit-store.ts:267-283 | at most 4 * max calls pass the failover wrapper in any such interval, for every pattern of failures |
| RateLimit.LostExpiryBlocks | apps/api/src/common/rate-limit-store.ts:133-139 | a key whose expiry was never set and that counts max calls denies every later call |
| RateLimit.BlockedForeverIff | apps/api/src/common/rate-limit-store.ts:126-151 | from a reachable state no run admits a caller that has not called before exactly when max is below 1 or the key has no expiry and counts max calls |
| RateLimit.NewcomerWithinWindow | apps/api/src/common/rate-limit-store.ts:126-151 | from every reachable state whose key has an expiry or is gone, any newcomer can pass within one window |
| RateLimit.StuckReachable | apps/api/src/common/rate-limit-store.ts:126-139 | under every policy such a key is reached: the first caller's PEXPIRE is not executed, and others follow |
| RateLimit.ScriptKeyExpires | apps/api/src/common/rate-limit-store.ts:158-165 | the script never leaves such a key |
| Sessions.RunKeepsInv | apps/api/src/users/users.service.ts:2404-2714 | over every run of start, heartbeat, end, sweep and block: a user's total is the sum of the durations of that user's sessions, a session is online exactly while it has no end, an ended one lasts from its start to its end, keys are unique |
| Sessions.EndedIsFinal | apps/api/src/users/users.service.ts:2404-2714 | an ended session never changes again, and no session changes owner or start |
| Sessions.StartOutcome | apps/api/src/users/users.service.ts:2404-2490 | a start is refused exactly to a wallet that is blocked and no admin, and violates the key's uniqueness exactly when, after the sweep, an ended session or one of another wallet holds the key; otherwise it grants an open session of the wallet, just seen, with the requested key |
| SessionOutcomes.StartEffect | apps/api/src/users/users.service.ts:2404-2490 | a start that succeeds answers with the wallet's open session of that key, refreshed, or else with a new one that starts now; every other row is as the sweep left it; the user has the role it was found to have and no block, and no other user's role or block changes |
| SessionOutcomes.StartRefused | apps/api/src/users/users.service.ts:2404-2490 | a refused start changes nothing but the wallet's role |
| SessionOutcomes.StartViolates | apps/api/src/users/users.service.ts:2404-2490 | a start whose key is taken has swept and let the user in, and changed nothing else |
| Sessions.HeartbeatOutcome | apps/api/src/users/users.service.ts:2492-2621 | an answered heartbeat names an open session of the wallet that was just seen: the one it asked for, or a new one |
| SessionOutcomes.BeatAnswered | apps/api/src/users/users.service.ts:2492-2621 | an answered heartbeat refreshes the session it names exactly when that is the wallet's and the sweep left it open, and otherwise starts a new session without a key; every other row is as the sweeps left it |
| SessionOutcomes.BeatRefused | apps/api/src/users/users.service.ts:2492-2621 | it is refused exactly to a blocked wallet that is no admin, and then closes the named session at that moment if it is still open |
| Sessions.EndAgain | apps/api/src/users/users.service.ts:2649-2665 | ending a session again, whatever happened since, changes nothing and reports the same duration |
| SessionOutcomes.EndOutcome | apps/api/src/users/users.service.ts:2623-2714 | ending closes an open session of the wallet now and reports how long it lasted and the sum over the wallet's sessions; of an ended one it reports what is stored, of any other nothing; no other row or user changes |
| Sessions.SweepExact | apps/api/src/users/users-online-state.service.ts:44-95 | a sweep closes exactly the sessions its query returned, at the time they were last seen |
| Sessions.SweepLeavesNoneStale | apps/api/src/users/users-online-state.service.ts:47-61 | it leaves no stale session exactly when there were at most 500 |
| Sessions.SweepLeavesOneStale | apps/api/src/users/users-online-state.service.ts:47-61 | after 501 starts of one wallet a sweep leaves a stale session |
| Sessions.BlockTakesOffline | apps/api/src/users/users.service.ts:4221-4283 | blocking flags the wallet and ends all of its sessions exactly when it has at most 500 open ones |
| SessionOutcomes.BlockRefused | apps/api/src/users/users.service.ts:4200-4219 | a block request is carried out exactly for a known wallet unless it would block an admin; the error says which, and no session changes |
| SessionOutcomes.BlockedUser | apps/api/src/users/users.service.ts:4221-4237 | afterwards the wallet is blocked exactly if that was asked for; nobody else changes, and lifting a block changes no session and no total |
| SessionOutcomes.BlockedSessions | apps/api/src/users/users.service.ts:4239-4275 | with a block every open session the query returned ends at that moment, and no other session changes |
| SessionOutcomes.BlockDecidesStart | apps/api/src/users/users.service.ts:4221-4237 | the wallet's next start is refused exactly if the block was set and it has not become an admin |
| Sessions.BlockLeavesOneOpen | apps/api/src/users/users.service.ts:4221-4283 | after 501 starts of one wallet blocking it leaves a session open |
| Sessions.BlockedStaysOut | apps/api/src/users/users.service.ts:2421-2421 | a blocked wallet without open sessions gets none until somebody unblocks it or makes it an admin |
| SessionStore.Store.FinalizeStaleSessions | apps/api/src/users/users-online-state.service.ts:44-95 | the loop of per-session transactions closes each returned session and credits its user |
| SessionStore.Store.StartSession | apps/api/src/users/users.service.ts:2404-2490 | role sync, sweep, upsert, and the reuse or the insert of a session row |
| SessionStore.Store.HeartbeatSession | apps/api/src/users/users.service.ts:2492-2621 | sweep, then refresh, close or replace the session |
| SessionStore.Store.EndSession | apps/api/src/users/users.service.ts:2623-2714 | close the session and credit its user, or report it as it is |
| SessionStore.Store.UpdateWalletUserBlock | apps/api/src/users/users.service.ts:4200-4283 | set or lift the flag as asked and close the open sessions, crediting once what crediting each would come to; the errors for an unknown wallet and for blocking an admin |
| ExplorerFeed.PageSplits | apps/api/src/users/users.service.ts:3425-3463 | a page is the head of what lies beyond the cursor; the next cursor stands exactly for the rest, and there is none exactly when nothing is left |
| ExplorerFeed.WalkCutsListing | apps/api/src/users/users.service.ts:3398-3465 | following the cursor ends and cuts the listing of all matching rows, newest first, into consecutive pages, for any limits |
| ExplorerFeed.WalkReassembles | apps/api/src/users/users.service.ts:3398-3465 | the pages put together are every matching row once, in order |
| ExplorerFeed.WalkLength | apps/api/src/users/users.service.ts:3398-3465 | with one limit a walk takes as many requests as are needed to hold the rows and no more, and one when there are none |
| ExplorerFeed.EarlierRowsIrrelevant | apps/api/src/users/users.service.ts:3425-3438 | rows that sort before the cursor do not change the remaining pages |
| ExplorerFeed.SeenInOrder | apps/api/src/users/users.service.ts:3398-3465 | however the table changes between requests, no row is seen twice or out of order |
| ExplorerFeed.NothingMissed | apps/api/src/users/users.service.ts:3398-3465 | and a client that reaches the last page has seen every matching row that was there throughout |
| ExplorerFeed.SafeLimit | apps/api/src/users/users.service.ts:3398-3402 | the page size is 30 unless asked otherwise, and what is asked for, cut to a whole number between 1 and 100 |
| WorkerPool.EveryScheduleEnds | apps/api/src/market/market.service.ts:414-438 | every interleaving has at most items + runners segments; when all runners stopped and no worker rejected, every result is in its place |
| WorkerPool.CalledOnceInOrder | apps/api/src/market/market.service.ts:428-435 | each item is handed to the worker once, in order |
| WorkerPool.RunKeepsInv | apps/api/src/market/market.service.ts:428-435 | at every point runners work on different items, each reached item is stored, in work or rejected, and segments are counted by the cursor |
| WorkerPool.RejectsOnlyWithWorker | apps/api/src/market/market.service.ts:434-437 | when all runners have stopped, one rejected exactly when some item's worker rejects |
| WorkerPool.Concurrency | apps/api/src/market/market.service.ts:420-423 | as many runners as the smaller of the setting and the number of items, and at least one |
| WorkerPool.MapWithConcurrency | apps/api/src/market/market.service.ts:414-438 | with workers that return, under any scheduling, results[i] is the worker's value for items[i] |
| Challenges.ConsumedAtMostOnceInTime | apps/api/src/auth/auth.service.ts:225-276 | across every interleaving of both verifiers, issuing and pruning: a challenge is consumed at most once, only by the wallet it was issued to, at a clock reading before its expiry |
| Challenges.OnlyLatestIsConsumed | apps/api/src/auth/auth.service.ts:346-357 | issuing a challenge revokes the wallet's earlier one |
| Challenges.AcceptedNeedsOwnChallenge | apps/api/src/users/users-wallet-auth.service.ts:67-116 | an accepted verification had a valid signature for the challenge it consumed, and two accepted ones consumed different challenges |
| Challenges.RowLostOnlyTo | apps/api/src/auth/auth.service.ts:216-220 | a challenge disappears only by a newer one, by expiry or by consumption |
| Challenges.AuthService.CreateNonce | apps/api/src/auth/auth.service.ts:336-360 | what remains is exactly the unexpired rows of other wallets, unchanged, and the wallet's new challenge |
| Challenges.AuthService.DeleteMany | apps/api/src/auth/auth.service.ts:266-272 | the conditional delete removes the row exactly when wallet and message match and it has not expired, and counts it |
| Challenges.AuthService.Verify | apps/api/src/users/users-wallet-auth.service.ts:67-116 | an undisturbed verification takes the steps of the interleaving, and accepts exactly with a valid signature on a challenge that is still there and unexpired |
| Convert.ExecutionAddsUp | apps/api/src/users/users-convert.service.ts:932-978 | completed plus failed legs is all legs, the amount is the sum over the legs, FAILED exactly when no leg completed, COMPLETED exactly when all did without a warning |
| Convert.ExecutesIff | apps/api/src/users/users-convert.service.ts:528-711 | a request executes the session exactly when wallet and network match, it is prepared and not expired, the submissions are of different prepared legs, each has the number of transactions prepared for it, and no call outside the try block throws |
| Convert.RefusedOrReplayed | apps/api/src/users/users-convert.service.ts:528-631 | which error or replay each other request gets, and that it changes nothing |
| Convert.ExpiryOutcome | apps/api/src/users/users-convert.service.ts:579-604 | an expired session ends now, with exactly its prepared legs, keeps everything else, and is answered as failed from then on |
| Convert.AbortedAt | apps/api/src/users/users-convert.service.ts:685-711 | a request that gets to the legs fails exactly if one does not pass, with the error of the first; the rows before it are written, the others and the session are as before |
| Convert.RowsOutcome | apps/api/src/users/users-convert.service.ts:661-960 | the rows after an execution agree with the response, and nothing else in them changes |
| Convert.LegOutcome | apps/api/src/users/users-convert.service.ts:659-930 | what each leg reports: completed exactly when everything ran or the balance still rose, by how much it rose, and which message otherwise |
| Convert.ReplayKeepsOutcome | apps/api/src/users/users-convert.service.ts:538-576 | a replay gives the same status, counts, totals, completion time, leg statuses and messages |
| Convert.ReplayReads | apps/api/src/users/users-convert.service.ts:538-576 | a replay shows the stored status, counts every leg once, and is dated by the completion or else by the last update |
| Convert.ReplayAgrees | apps/api/src/users/users-convert.service.ts:538-576 | and the same amounts and first signatures exactly when every leg the wallet did not sign held nothing from an earlier request |
| Convert.ReplayChangesNothing | apps/api/src/users/users-convert.service.ts:538-576 | later requests answer alike and change neither the session nor its legs |
| Convert.FirstRequestReplays | apps/api/src/users/users-convert.service.ts:659-684 | for a session as prepared, executed by its first request, the replay agrees |
| Convert.CompletedLegReportedFailed | apps/api/src/users/users-convert.service.ts:661-684 | a leg completed by a request that was aborted later is reported as failed, with nothing, by the request that executes the session, while its row keeps the amount |
| Convert.AbortThenReplayDisagrees | apps/api/src/users/users-convert.service.ts:694-703 | an abort at the second of two legs and a retry lead to a replay that disagrees |
| Convert.AbortExample | apps/api/src/users/users-convert.service.ts:694-703 | the same with values |
| Convert.Store.ExecuteWalletConvert | apps/api/src/users/users-convert.service.ts:514-981 | checks, expiry, replay or the leg loop, with every row written on the way; a prepared session is executed only before it expires |
| Convert.Store.LegLoop | apps/api/src/users/users-convert.service.ts:653-930 | the loop runs every leg on its own row, adds up, and stops at the leg that throws |
| DocsSlugs.SlugifyIsJoinedWords | apps/api/src/docs/docs.service.ts:215-220 | slugify is the maximal runs of slug characters of the lower-cased text, joined by hyphens |
| DocsSlugs.SlugifyLanguage | apps/api/src/docs/docs.service.ts:215-220 | it is empty exactly without such characters and otherwise in the language of the slug pattern; slugs are its fixed points, so it is idempotent |
| DocsSlugs.SlugTestIsRegex | apps/api/src/docs/docs.service.ts:23 | the test accepts exactly the nonempty lists of words joined by single hyphens |
| DocsSlugs.SanitizeSlugLanguage | apps/api/src/docs/docs.service.ts:188-199 | what is accepted is exactly what is a slug once trimmed and lower-cased, and every slug is accepted as it is; the error tells an empty value from a malformed one |
| DocsSections.SanitizeSections | apps/api/src/docs/docs.service.ts:236-273 | a page is refused exactly when one of its first forty sections is, with the first one's error; otherwise every section is its draft with the first free anchor |
| DocsSections.DraftRefused | apps/api/src/docs/docs.service.ts:236-256 | a section is refused exactly for a blank title, else for a requested anchor that is no slug or a title without slug characters when none is requested, else when all paragraphs are blank |
| DocsSections.DraftHolds | apps/api/src/docs/docs.service.ts:222-271 | otherwise it holds the trimmed title, the requested anchor in lower case or else the title's words joined, the first forty paragraphs that are not blank, in order, and its order |
| DocsSections.UniqueAnchor | apps/api/src/docs/docs.service.ts:258-264 | the rename loop ends with the first candidate that is not in use |
| DocsSections.SanitizedPage | apps/api/src/docs/docs.service.ts:236-273 | on success anchors are pairwise distinct slugs, titles and contents are not empty |
| DocsSections.AssignedUnique | apps/api/src/docs/docs.service.ts:258-264 | the anchors are determined by the base anchors |
| DocsSections.SavingAgain | apps/api/src/docs/docs.service.ts:236-273 | sending back the sections a page was saved with saves the very same sections |
| DocsSections.SanitizeOrder | apps/api/src/docs/docs.service.ts:201-206 | a finite order is cut to a whole number between 0 and 10000, anything else is the section's place |
| RawAmounts.RawAmountExact | apps/api/src/users/users-staking.service.ts:1380-1392 | an amount that is negative or no number is 0; any other is the integer nearest amount * 10^decimals, ties upwards, exactly when it is below 10^21; decimals are cut towards zero and to 0 to 18 |
| RawAmounts.RawTextOfFixed | apps/api/src/users/users-staking.service.ts:1383-1391 | splitting, padding, joining, stripping zeros and parsing undo the fixed-point printing |
| RawAmounts.NearestIsClosest | apps/api/src/users/users-staking.service.ts:1383-1385 | an integer is the one printed exactly when no integer is nearer, and none as near is larger |
| RawAmounts.ExponentTextMisread | apps/api/src/users/users-staking.service.ts:1383-1391 | from 10^21 on what is parsed is no number or one below 10^21 |
| RawAmounts.MisreadExample | apps/api/src/users/users-staking.service.ts:1383-1391 | 1.5e+21 with one decimal is read as 15 |

## Left out

- User interface, controllers, guards, settings, uploads, logging, news, roles and proxy administration: wiring or easier repeats of what is here.
- Network, RPC and database failures outside the modelled statements, the rate-limit checks in front of the session and conversion methods, and the blocked-wallet check in front of the conversion: a call that fails there changes nothing modelled.
- Signatures, hashes, tokens and program-derived addresses: a valid signature is a parameter, and addresses derived from different seeds are different by construction.
- Token-2022 fees and hooks, minting, burning, closing accounts and changing their owner: a transfer is a plain ledger move, and a supply changes by nothing else in the model.
- `ensure_input_vault` and account bumps, versions and reserved bytes: they change no modelled state.
- Floating-point prices, quotes and balances: prices are integers and conversion amounts are exact reals, stored without rounding.
- The single-flight promise of `finalizeStaleSessions`, and interleavings inside one session method: each method is one step.
- On-chain balance syncs between the writes of `startSession`, IP addresses, countries and user agents: they touch neither the sessions' times nor the totals.
- `resetAt` in the answers of the Redis stores: it does not decide who is admitted.
- The base64 and JSON text of feed cursors: a malformed cursor is the first page, as in the source; ids are compared through their place in the database's text order.
- The rewording of two error messages of failed conversion legs, wallet activities and metadata, and failures after the leg loop: the message shown is a parameter.
- Failures before the leg loop (settings, prices, mint lookup): the session is unchanged by them.
- Prisma's query plans: which 500 rows a cut-off query returns is arbitrary.
- Unicode lower-casing: toLowerCase is a function parameter that leaves lower-case ASCII letters, digits and hyphens alone.
- Number::toString from 10^21 on: its digits are a parameter of exponent form.
- Interrupted migrations, the live-price cache, per-mint balance sums, the mirrored stake counters and the audit sanitizer: secondary, with the same kind of argument as members that are here.
- The featured pair's administration in the candle service: it passes stale contexts between services and keeps no clean invariant.
