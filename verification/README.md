# StellarLend: verified models of its stateful cores

This project models the parts of the repository whose correctness depends on more than one call: an
out-of-order indexing pipeline, three caches, lending entry points that can be re-entered, a Merkle
tree, the oracle's medians, averages and rate limiter, multi-step transactions, insurance claims and
the bulk import.  `dafny verify dfyconfig.toml` checks all of it.

Each stateful component is a class whose fields and methods follow the source.  A method's `ensures`
gives its whole new state by a function of the old one, and the theorems are proved about those
functions, over every run of calls.  Where a call awaits the network, the database or the oracle and
others can come in between, it is split at the await: the commit loop between a release and its
writes, the reorganisation handler between its three, `prepareStep` and `approveStep`, `submitClaim`
and `verifyClaim`, the external calls of the lending contract.  For each component there are two kinds
of theorems: what every run keeps, and what every answer and every stored value is, read off the list
of operations alone.  Block numbers, timestamps and list sizes are unbounded; `i128` amounts carry their
range; floating-point numbers are reals; clocks, network answers, hashes, collation and column
validators are parameters.

| file | part of the repository |
|---|---|
| `BlockIndexer.dfy`, `RegistrationHistory.dfy`, `DispatcherRounds.dfy`, `CommitPipeline.dfy`, `InterruptedReorg.dfy`, `MissingEvents.dfy`, `RepositoryHistory.dfy`, `LateRegistration.dfy` | `stellar-lend/indexing_system/src/parallel_indexer.rs` with the repository calls it makes |
| `BoundedTtlCache.dfy` | `api/src/utils/boundedTtlCache.ts` |
| `OracleCache.dfy` | `oracle/src/services/cache.ts`, in-memory path |
| `LedgerCache.dfy` | `stellar-lend/contracts/common/src/cache.rs` |
| `LendingCalls.dfy`, `LendingLedgers.dfy`, `LendingAnswers.dfy` | `contract/src/` deposit, withdraw, borrow, repay, flash loan and the re-entrancy guard |
| `MerkleTree.dfy` | `api/src/utils/merkleTree.ts` |
| `PriceAggregator.dfy`, `PriceWeights.dfy`, `RateLimiter.dfy`, `PriceHistory.dfy` | the oracle's medians, rate limiter and price history |
| `TransactionBuilder.dfy`, `TransactionHistory.dfy` | `api/src/services/transactionBuilder.service.ts` |
| `ClaimsLifecycle.dfy`, `ClaimsHistory.dfy`, `PayoutCalculator.dfy` | `oracle/src/claims/` |
| `CsvLines.dfy`, `SubscriptionImport.dfy`, `ImportOutcome.dfy` | `api/src/utils/importExport.ts` |
| `InsertionMap.dfy`, `LastTouch.dfy`, `LastWrite.dfy`, `Arithmetic.dfy`, `Options.dfy` | JavaScript's insertion-ordered `Map`, logs of touched keys, lists of writes, BigInt division, and an option type |

## Where the code does not do what one would expect

In each case the model follows the code, a lemma says exactly when the expectation holds, and where
the failure is a run of calls another lemma has one.

- **Rollback keeps straddling results.**  The comment on `rollback_to` (parallel_indexer.rs:168-170)
  speaks of discarding results that overlap the reorganised range; line 180 tests only the first
  block.  `RollbackDiscardsOverlapsExactly` has the condition, `StraddlingResultComesBack` a run, and
  `SurvivorsOfRollback` says which pending results can come back at all.
- **A reorganisation between a release and its write** is undone by the write: the commit loop moves
  the pointer past the frontier again (parallel_indexer.rs:479-503).  At block 0 the pointers are reset
  to 0, not -1 (691-699).  `ReorgSettlesExactly` covers both; `PointerOvertakesFrontier` is a run.
- **A commit loop that goes on during a reorganisation** may write what the handler then takes back:
  `InterruptedReorgSettlesExactly` says when the pointers end up right, `EventsMissingExactly` when
  released events are missing, and `EventLostInReorg` is a run in which the pointers are right and an
  event is missing all the same.
- **A result of an earlier round can stop the frontier inside a task** of the latest round, whose
  result then waits for nothing (parallel_indexer.rs:134-145, 615-643):
  `RoundReachesTipOrStopsInside`, with the run `EarlierRoundStopsFrontier`.
- **A failed write is hidden** by the next batch's pointer (parallel_indexer.rs:485-553):
  `FailedWriteHiddenExactly`.
- **A contract registered while the pipeline runs stalls**: its metadata row says that its start block
  is indexed already, its frontier still waits for that block (parallel_indexer.rs:301-327,
  repository.rs:432-443).  Only a reorganisation at or below the start ends this:
  `LateRegistrationStallsExactly`.
- **The empty key stops eviction** in the TTL cache (boundedTtlCache.ts:76): `BoundRestoredExactly`.
  Reads keep to the history of the cache exactly as long as no write leaves too many entries
  (`HistoryHoldsExactly`); `EmptyKeyBreaksBound` is a run in which both fail.
- **A fresh write can vanish** from the on-chain cache, because an expired read leaves the key's place
  in the order behind (cache.rs:117-119, 136-137): `SetThenGet` has the condition, and
  `LostWriteIsReachable` a run that meets it.
- **A Merkle proof made by the tree itself is rejected** when some node on its path has no sibling
  (merkleTree.ts:52, 96): `OwnProofAcceptedExactly`, `AllPathsFullExactly`.
- **A proof that was never made for the tree is accepted** when its leaf is no digest: `verify` tests no
  length (merkleTree.ts:74-86).  `AcceptedLeafIsInTree` has the condition, `ForgedProofAccepted` a proof;
  the number of siblings is not tested either, which `AcceptedLeafExactly` takes in as well.
- **A step can be submitted twice**: `prepareStep` writes after its await without checking again
  (transactionBuilder.service.ts:82-92), so two of them can approve one step after the other.
  `OrderBreaksExactly` says which ending preparation breaks the order, `StepSentTwice` is a run.
- **A failed transaction can go on** while a preparation or a submission is awaited
  (transactionBuilder.service.ts:89-92, 117-136): `FailureUndoneExactly`, with the runs
  `RejectedStepIsSent` and `RejectedTransactionSubmitsAgain`.
- **A paid claim can be approved and paid again**: the answer to a verification does not look at the
  claim's status (claims-service.ts:298-313).  `PaidOutFinalExactly` has the condition, `PaidTwice` a run.
- **Nothing credits a withdrawal balance** in the contract code (withdraw.rs:51-54, 70-78):
  `WithdrawnExactly`.
- The header of dispute-manager.ts (line 5) lists PAID_OUT among the disputable statuses; the code
  (69-80) refuses it.

## Model

| member | source | states |
|---|---|---|
| BlockIndexer.StateManager.constructor | stellar-lend/indexing_system/src/parallel_indexer.rs:97-111 | the frontier of each listed contract is the last number given for it, and nothing is pending |
| BlockIndexer.StateManager.RegisterResult | stellar-lend/indexing_system/src/parallel_indexer.rs:118-152 | the loop over `next` changes the state and returns the slice that `Register` specifies |
| BlockIndexer.StateManager.RollbackTo | stellar-lend/indexing_system/src/parallel_indexer.rs:171-181 | every frontier is lowered to the reorg block at most, and exactly the pending results that start before it stay |
| BlockIndexer.DrainReleasesMaximalChain | stellar-lend/indexing_system/src/parallel_indexer.rs:134-145 | the slice is the longest gap-free chain from the frontier; everything else stays pending |
| BlockIndexer.RegisterAdvancesFrontier | stellar-lend/indexing_system/src/parallel_indexer.rs:113-152 | the slice runs from the old frontier to the new one, nothing pending sits at a frontier, and no other contract moves |
| BlockIndexer.ChainPartitions | stellar-lend/indexing_system/src/parallel_indexer.rs:20-22 | the ranges of a chain are disjoint, ascending and cover each block between its ends exactly once |
| BlockIndexer.Dispatch | stellar-lend/indexing_system/src/parallel_indexer.rs:615-643 | the tasks cut the interval from the first block to the tip exactly into batches, only the last one shorter |
| BlockIndexer.TilingIsUnique | stellar-lend/indexing_system/src/parallel_indexer.rs:622-642 | that tiling is the only one, so `Dispatch` is determined by its contract |
| BlockIndexer.ReleasesRegisteredPrefix | stellar-lend/indexing_system/src/parallel_indexer.rs:118-152 | for any order, repetition and mixture with other contracts, the slices so far concatenate to the tiles before the first one not registered yet |
| BlockIndexer.AllTilesReleasedInOrder | stellar-lend/indexing_system/src/parallel_indexer.rs:614-643 | once every tile has been registered, in any order, all come out ascending and the frontier is tip + 1 |
| RegistrationHistory.ReleasedIsLast | stellar-lend/indexing_system/src/parallel_indexer.rs:118-152 | over every run of registrations and rollbacks, each released result is the last one registered for its contract and first block |
| RegistrationHistory.PendingExactly | stellar-lend/indexing_system/src/parallel_indexer.rs:118-181 | after every such run, of known and unknown contracts, a result is pending if and only if it is the last registered for its contract and first block and was neither released nor rolled back since |
| RegistrationHistory.LastPairCounts | stellar-lend/indexing_system/src/parallel_indexer.rs:97-111 | a contract has a frontier at the start if and only if it is listed, and that is the number listed for it last |
| DispatcherRounds.RoundReachesTipOrStopsInside | stellar-lend/indexing_system/src/parallel_indexer.rs:118-152 | once every task of a round was answered, whatever results of earlier rounds are pending or come in besides, the frontier is past the tip unless it stopped inside a task, and never at the start of one |
| DispatcherRounds.FittingRoundReachesTip | stellar-lend/indexing_system/src/parallel_indexer.rs:615-643 | it is past the tip if all other results end where a task of the round ends, before the round or past its tip |
| DispatcherRounds.EarlierRoundStopsFrontier | stellar-lend/indexing_system/src/parallel_indexer.rs:118-152 | a round, completely answered, whose frontier stays inside its only task |
| BlockIndexer.RollbackForgetsPending | stellar-lend/indexing_system/src/parallel_indexer.rs:169-181 | a contract whose frontier was beyond the reorg block gets back only results registered after the rollback, whatever follows |
| BlockIndexer.SurvivorsOfRollback | stellar-lend/indexing_system/src/parallel_indexer.rs:169-181 | a pending result can come back without new registration if and only if it starts below the reorg block and not below its contract's frontier |
| BlockIndexer.StraddlingResultComesBack | stellar-lend/indexing_system/src/parallel_indexer.rs:169-181 | a run in which a result that straddles the block is released after the rollback |
| CommitPipeline.ParallelIndexer.ReceiveResult | stellar-lend/indexing_system/src/parallel_indexer.rs:473-479 | the loop's step up to the first await of the repository: the result is registered and the released batches wait |
| CommitPipeline.ParallelIndexer.CommitResult | stellar-lend/indexing_system/src/parallel_indexer.rs:473-556 | an iteration that nothing interrupts: all released batches written in order, events before pointer |
| CommitPipeline.ParallelIndexer.HandleReorg | stellar-lend/indexing_system/src/parallel_indexer.rs:675-713 | frontiers, pending results, stored events and pointers after a reorganisation |
| CommitPipeline.EventRepository.CreateEventsBatch | stellar-lend/indexing_system/src/repository.rs:76-109 | new events are added, an event whose identity is stored already is ignored |
| CommitPipeline.EveryRunReleasesInOrder | stellar-lend/indexing_system/src/parallel_indexer.rs:466-713 | in every run, however the parts of reorganisations fall between the loop's steps and whichever writes fail, a contract's ranges released since its last rollback are exactly the blocks up to the frontier, each once, and no pending result starts at the frontier |
| CommitPipeline.PointersFollowFrontier | stellar-lend/indexing_system/src/parallel_indexer.rs:466-562 | in every run without failed writes whose reorganisations are not interrupted and find no waiting batch that reaches their block, pointer + 1 is the frontier once the batches are written, never beyond it, and no stored event lies at or past it |
| CommitPipeline.ReleasedEventsAreStored | stellar-lend/indexing_system/src/parallel_indexer.rs:479-556 | in such a run every event of a range released since the last rollback is stored, unless the range still waits to be written |
| MissingEvents.StoredExactly | stellar-lend/indexing_system/src/parallel_indexer.rs:479-713 | in every run, however reorganisations, their parts and failures fall, an event is stored if and only if some step stored a batch that has it and no later step deleted its block |
| MissingEvents.EventsMissingExactly | stellar-lend/indexing_system/src/parallel_indexer.rs:473-713 | after a reorganisation during which the commit loop went on, in a run that missed nothing before, every event of every released range is stored or still to be if and only if no batch released since the rollback that has an event at or past the block was stored before the deletion |
| RepositoryHistory.EventExactly | stellar-lend/indexing_system/src/repository.rs:76-109 | in every run, whatever the identities, the event stored under one is the first with it of the batch stored when there was none, until its own block is deleted |
| RepositoryHistory.PointerExactly | stellar-lend/indexing_system/src/parallel_indexer.rs:481-713 | in every run a pointer is what was written to it last: the last block of a batch, whatever was there, or by a reset the block before the reorganised one if it had reached that |
| RepositoryHistory.BatchesInOrder | stellar-lend/indexing_system/src/parallel_indexer.rs:473-556 | in every run the batches are written, or given up after a failure, in the order of their release, each once |
| CommitPipeline.FrontierFallsOnlyInReorg | stellar-lend/indexing_system/src/parallel_indexer.rs:171-181 | a step lowers a frontier if and only if it is the rollback of a reorganisation below it |
| CommitPipeline.ReorgSettlesExactly | stellar-lend/indexing_system/src/parallel_indexer.rs:675-713 | pointers agree with frontiers after a reorganisation if and only if no waiting batch reaches its block, and the block is positive or nothing had been indexed |
| CommitPipeline.FailedWriteHiddenExactly | stellar-lend/indexing_system/src/parallel_indexer.rs:481-556 | once the batches after a failed write are written, all pointers agree with the frontiers if and only if there are such batches |
| InterruptedReorg.InterruptedReorgSettlesExactly | stellar-lend/indexing_system/src/parallel_indexer.rs:473-713 | whatever the commit loop does between the rollback and the reset of the pointers, these agree with the frontiers afterwards if and only if no batch released since the rollback that reaches the block was written before the reset, and none released earlier waits for being written after it |
| MissingEvents.EventLostInReorg | stellar-lend/indexing_system/src/parallel_indexer.rs:481-699 | a run after which pointers agree and nothing waits, but a released event is not stored |
| CommitPipeline.PointerOvertakesFrontier | stellar-lend/indexing_system/src/parallel_indexer.rs:479-503 | a run after which the pointer is 4 and the frontier 2, with nothing left to write |
| LateRegistration.LateRegistrationStallsExactly | stellar-lend/indexing_system/src/parallel_indexer.rs:301-327 | after anything that released nothing for a contract registered while running, something can be released without a further reorganisation if and only if one at or below its start block has come |
| BoundedTtlCache.BoundedTtlCache.Get | api/src/utils/boundedTtlCache.ts:22-36 | prune, then look the entry up with a second clock reading and drop it if it expired between the two |
| BoundedTtlCache.BoundedTtlCache.Set | api/src/utils/boundedTtlCache.ts:38-50 | prune, move or add the key to the end with a new expiry, then enforce the bound |
| BoundedTtlCache.BoundedTtlCache.Size | api/src/utils/boundedTtlCache.ts:60-63 | the number of unexpired entries |
| BoundedTtlCache.BoundedTtlCache.PruneExpired | api/src/utils/boundedTtlCache.ts:65-71 | the loop keeps exactly the unexpired entries, in order |
| BoundedTtlCache.BoundedTtlCache.EnforceBounds | api/src/utils/boundedTtlCache.ts:73-81 | the loop drops oldest entries until the bound holds or the empty key is met |
| BoundedTtlCache.RunIsTail | api/src/utils/boundedTtlCache.ts:22-81 | after every run of reads, writes, size queries, deletions and clears in which no operation left too many entries, the live entries are those of an unbounded cache that were not crowded out |
| BoundedTtlCache.NamedKeysBound | api/src/utils/boundedTtlCache.ts:73-81 | no operation of a run without the empty key leaves too many entries |
| BoundedTtlCache.GetMatchesHistory | api/src/utils/boundedTtlCache.ts:22-81 | in such a run a read returns the last value set if and only if it was not deleted or cleared, is younger than the TTL, and at no time since had maxEntries other, later set keys beside it |
| BoundedTtlCache.HistoryHoldsExactly | api/src/utils/boundedTtlCache.ts:22-81 | whatever the keys, all reads after all operations of a run return what that history says if and only if no operation left too many entries |
| BoundedTtlCache.CrowdingIsFinal | api/src/utils/boundedTtlCache.ts:73-81 | without deletions and clears that means: fewer than maxEntries other keys were set since |
| BoundedTtlCache.BoundRestoredExactly | api/src/utils/boundedTtlCache.ts:73-81 | eviction restores the bound if and only if the empty key is not among the entries it has to drop |
| BoundedTtlCache.EmptyKeyBreaksBound | api/src/utils/boundedTtlCache.ts:73-81 | a run that leaves two entries in a cache for one, and reads one that was crowded out |
| OracleCache.Cache.Get | oracle/src/services/cache.ts:126-147 | hit, miss and expiry, with the entry moved to the end and the counters updated |
| OracleCache.Cache.Set | oracle/src/services/cache.ts:153-182 | re-insertion at the end, after a batch eviction when a new key meets a full cache |
| OracleCache.Cache.Has | oracle/src/services/cache.ts:243-255 | an expired entry is removed, a live one is not moved |
| OracleCache.Cache.EvictLRUBatch | oracle/src/services/cache.ts:295-313 | the loop drops the first batchSize entries, or all |
| OracleCache.Cache.Cleanup | oracle/src/services/cache.ts:318-334 | exactly the unexpired entries stay, in order |
| OracleCache.RunKeepsBound | oracle/src/services/cache.ts:153-182 | in every run at most maxEntries entries are stored (one when it is 0), under different keys |
| OracleCache.StoreOrderIsTouchOrder | oracle/src/services/cache.ts:33-39 | in every run store order is last-touch order |
| OracleCache.HitReturnsLastWrite | oracle/src/services/cache.ts:126-182 | in every run a stored entry is the one last written for its key, with no deletion after it |
| OracleCache.TouchedKeyIsAHit | oracle/src/services/cache.ts:153-182 | after any run, a touched key stays a hit while unexpired, not deleted and followed by touches of at most maxEntries - batchSize other keys |
| OracleCache.EvictionExactly | oracle/src/services/cache.ts:153-182 | after any run, a write of a new key to a full cache spares a stored key if and only if at least batchSize stored keys were last touched longer ago |
| OracleCache.ReadsAreCounted | oracle/src/services/cache.ts:126-147 | hits and misses add up to the reads, and a hit is counted exactly when a value was returned |
| OracleCache.ReadsHistory | oracle/src/services/cache.ts:126-255 | after every run, with any clock, a read or a test finds the value last set if and only if it was not deleted, its own or else the configured number of seconds has not passed, and it was neither found expired nor evicted since |
| OracleCache.StoredExactly | oracle/src/services/cache.ts:153-334 | what is stored, read off the list of operations: exactly the last writes not deleted, found expired, cleaned up or evicted since |
| OracleCache.BatchIsCeiling | oracle/src/services/cache.ts:295-299 | the batch is the least whole number, at least 1, that reaches the configured share of the entries |
| OracleCache.EvictionsAreCounted | oracle/src/services/cache.ts:295-313 | the eviction counter is the number of keys that writes pushed out |
| LedgerCache.LedgerCache.TouchKey | stellar-lend/contracts/common/src/cache.rs:36-52 | the index loop takes the key out of the order and appends it |
| LedgerCache.LedgerCache.EvictLruIfNeeded | stellar-lend/contracts/common/src/cache.rs:54-69 | keys are popped off the front of the order until at most 64 values are left or the order is empty |
| LedgerCache.LedgerCache.Invalidate | stellar-lend/contracts/common/src/cache.rs:71-93 | the value and the place in the order are removed |
| LedgerCache.LedgerCache.SetCached | stellar-lend/contracts/common/src/cache.rs:95-121 | a TTL of 0 is refused; otherwise write, evict, touch, in this order |
| LedgerCache.LedgerCache.GetCached | stellar-lend/contracts/common/src/cache.rs:123-142 | a live value is returned and touched, an expired one is removed from the map but not from the order |
| LedgerCache.RunKeepsInvariant | stellar-lend/contracts/common/src/cache.rs:36-142 | in every run the order has no duplicates, lists every cached key, and at most 64 values are stored |
| LedgerCache.OrderIsTouchOrder | stellar-lend/contracts/common/src/cache.rs:36-52 | in every run the order vector is the last-touch order of its keys |
| LedgerCache.EvictsLeastRecentlyTouched | stellar-lend/contracts/common/src/cache.rs:54-69 | an overflowing write removes exactly one value, that of the live key touched longest ago |
| LedgerCache.SetThenGet | stellar-lend/contracts/common/src/cache.rs:95-142 | a write read back before its expiry returns the value if and only if it was not lost to its own stale place in the order |
| LedgerCache.WriteStaysReadable | stellar-lend/contracts/common/src/cache.rs:95-142 | such a write stays readable through every run that touches fewer than 64 other keys |
| LedgerCache.ReadsHistory | stellar-lend/contracts/common/src/cache.rs:71-142 | after every run, with any clock, a read returns the value last written if and only if it was not invalidated, its time is not over, and it was neither found expired nor evicted since or by its own write |
| LedgerCache.HeldExactly | stellar-lend/contracts/common/src/cache.rs:54-142 | which values are held, with which expiry, read off the list of operations |
| LedgerCache.InvalidationForgets | stellar-lend/contracts/common/src/cache.rs:71-93 | after an invalidation the key reads as absent and has no place in the order, and no other key reads differently |
| LedgerCache.ReadsAreCounted | stellar-lend/contracts/common/src/cache.rs:123-142 | every read is counted once, as a hit exactly when it returned a value |
| LedgerCache.LostWriteIsReachable | stellar-lend/contracts/common/src/cache.rs:117-137 | a run of ordinary calls after which a value written with an hour to live is gone at once |
| LendingCalls.LendingContract.EnterGuard | contract/src/reentrancy_guard.rs:73-86 | refuses when the key is Entered and changes nothing then, otherwise sets it |
| LendingCalls.LendingContract.Call | contract/src/deposit.rs:50-109 | a guarded entry point, with all calls made back from its external calls, does what the recursive semantics `Exec` says |
| LendingCalls.LendingContract.DoInteractions | contract/src/flash_loan.rs:38-91 | the external calls in order, the loan record before the transfer, the repayment test on the balance found last |
| LendingLedgers.CallsSound | contract/src/reentrancy_guard.rs:73-95 | for every tree of nested calls, at every external call and return: a guard is Entered exactly while its function is on the stack, the total is the sum of all collateral and within the cap, debts and balances are not negative |
| LendingLedgers.CallsMatch | contract/src/borrow.rs:11-78 | for every tree of nested calls, each user's collateral, debt and balance change by exactly the amounts of the calls answered with success in frames that neither trapped nor were undone |
| LendingLedgers.EveryRunSound | contract/src/deposit.rs:50-109 | from a fresh storage every sequence of such trees keeps both, and leaves every guard free |
| LendingLedgers.ReentryInEveryRun | contract/src/reentrancy_guard.rs:73-95 | wherever a run gets to, a call made from there is refused as re-entrant if and only if its function is on the stack, and the refusal changes nothing |
| LendingLedgers.WithdrawnExactly | contract/src/withdraw.rs:51-78 | some sequence of calls makes a withdrawal for a user if and only if the user's balance was positive at the start |
| LendingAnswers.DepositAnswered | contract/src/deposit.rs:50-109 | with any nested calls, exactly when a deposit succeeds, traps or is refused with which error; success returns the new amount and leaves exactly that position and total, anything else moves no collateral |
| LendingAnswers.WithdrawAnswered | contract/src/withdraw.rs:32-78 | the same for a withdrawal and the balances |
| LendingAnswers.BorrowAnswered | contract/src/borrow.rs:11-43 | the same for a loan and the debts |
| LendingAnswers.RepayAnswered | contract/src/borrow.rs:45-78 | the same for a repayment |
| LendingAnswers.FlashLoanAnswered | contract/src/flash_loan.rs:23-91 | every reply of a flash loan, whatever its four external calls do, and the record it leaves |
| LendingAnswers.CallsFreeze | contract/src/reentrancy_guard.rs:73-95 | while a guard is Entered no calls, at any depth, change the ledger it protects |
| LendingAnswers.EffectsComeFirst | contract/src/deposit.rs:71-108 | the first thing other contracts can see of a successful call has its guard set and its ledger moved |
| LendingAnswers.LoanRecordedFirst | contract/src/flash_loan.rs:38-62 | the transfer of a flash loan finds the loan recorded |
| LendingAnswers.UnwelcomeCallsDoNothing | contract/src/deposit.rs:56-65 | leaving out all unauthorised and paused calls of a run, at any depth, changes no ledger at its end |
| MerkleTree.HashPairCommutes | api/src/utils/merkleTree.ts:7-11 | the canonical order makes the pair hash symmetric |
| MerkleTree.SmallerFirst | api/src/utils/merkleTree.ts:7-11 | of a pair the string that is a beginning of the other, or smaller where they first differ, is hashed first |
| MerkleTree.BuildLevel | api/src/utils/merkleTree.ts:93-99 | the pairing loop computes the parents, an unpaired node paired with itself |
| MerkleTree.Build | api/src/utils/merkleTree.ts:88-104 | all levels up to the root |
| MerkleTree.Create | api/src/utils/merkleTree.ts:24-30 | an empty list is refused, otherwise the tree over the hashed leaves |
| MerkleTree.GetProof | api/src/utils/merkleTree.ts:40-68 | the siblings on the path to the root, levels without one contributing nothing |
| MerkleTree.SiblingsAreNeighbours | api/src/utils/merkleTree.ts:47-60 | each sibling of a proof is the neighbour of the leaf's ancestor on some level, on the side its position says |
| MerkleTree.Verify | api/src/utils/merkleTree.ts:74-86 | folding the siblings onto the leaf gives the root |
| MerkleTree.AcceptedLeafIsInTree | api/src/utils/merkleTree.ts:74-104 | an accepted proof of full depth for the root has a leaf of the tree if and only if what it has is as long as a digest, if the hash is injective on the texts hashed for this tree and this proof |
| MerkleTree.AcceptedLeafExactly | api/src/utils/merkleTree.ts:74-104 | an accepted proof of any depth has a leaf of the tree if and only if, besides, its siblings are as many as the levels above the leaves, if no raw leaf is the text of a pair and the hash is injective on all these texts |
| MerkleTree.ForgedProofAccepted | api/src/utils/merkleTree.ts:74-86 | for every tree of two leaves and every hash, a proof of full depth that is accepted though its leaf is none of the tree's; it hashes the tree's own pair text, so no collision is involved |
| MerkleTree.FullPathAccepted | api/src/utils/merkleTree.ts:40-86 | the tree's own proof for a leaf whose path has a sibling on every level is accepted, whatever the hash |
| MerkleTree.ShortPathRejected | api/src/utils/merkleTree.ts:40-104 | otherwise it is rejected, if the raw leaf is not the text of a pair of the tree and the hash is injective on the texts hashed for it |
| MerkleTree.OwnProofAcceptedExactly | api/src/utils/merkleTree.ts:40-104 | under these conditions: accepted if and only if the path has a sibling on every level |
| MerkleTree.AllPathsFullExactly | api/src/utils/merkleTree.ts:88-104 | all leaves have such a path if and only if their number is a power of two |
| PriceAggregator.WeightedMedian | oracle/src/services/price-aggregator.ts:238-258 | the cumulative loop returns the least price up to which half of the weight lies |
| PriceAggregator.AggregatePrice | oracle/src/services/price-aggregator.ts:198-213 | one quote is passed through, more go to the configured median; the result is that median in every case |
| PriceAggregator.MedianPermutes | oracle/src/services/price-aggregator.ts:238-258 | the weighted median does not depend on the order of the sources |
| PriceAggregator.MajorityDecides | oracle/src/services/price-aggregator.ts:238-258 | if sources with more than half of the weight lie in an interval, so does the result |
| PriceWeights.RangeWeighsAsConfigured | oracle/src/services/price-aggregator.ts:241-246 | with different provider names and one quote each, the quotes of any range weigh the configured weights of the providers that quote in it and a tenth for each unknown source |
| PriceWeights.HeavyProviderDecides | oracle/src/services/price-aggregator.ts:238-258 | a provider whose configured weight is more than half of that total fixes the result at its own quote |
| PriceAggregator.SimpleMajorityDecides | oracle/src/services/price-aggregator.ts:263-274 | the same for the unweighted median by count, rounding included |
| PriceWeights.SimpleMedianByRank | oracle/src/services/price-aggregator.ts:263-274 | the simple median is the price of middle rank, or the mean of the two middle prices rounded towards zero |
| PriceWeights.RankIsUnique | oracle/src/services/price-aggregator.ts:263-274 | that determines it: no two prices have one rank |
| RateLimiter.RateLimiter.Pass | oracle/src/providers/base-provider.ts:143-152 | one pass accepts if and only if fewer than maxRequests of all acceptances ever are in the window |
| RateLimiter.RateLimiter.EnforceRateLimit | oracle/src/providers/base-provider.ts:127-159 | the wait loop ends, however early its sleeps end as long as the clock advances; it accepts at once exactly when the window has room, and after one sleep that does not end early |
| RateLimiter.AttemptRemembers | oracle/src/providers/base-provider.ts:138-152 | discarding old timestamps never changes a decision, and acceptances stay spaced |
| RateLimiter.CountExactly | oracle/src/providers/base-provider.ts:138-145 | what is compared with maxRequests is the number of acceptances at most windowMs old, those at the very edge included |
| RateLimiter.NeverMoreThanMaxPerWindow | oracle/src/providers/base-provider.ts:138-152 | in every run, acceptances maxRequests apart are more than a window apart in time |
| PriceHistory.PriceRing.AddPriceEntry | oracle/src/services/price-history.ts:74-98 | the ring keeps the last maxEntries of all entries ever added |
| PriceHistory.PriceRing.GetPriceHistory | oracle/src/services/price-history.ts:110-147 | those entries in order, cut to the limit from the oldest side |
| PriceHistory.PriceRing.GetLatestPrice | oracle/src/services/price-history.ts:226-238 | the entry added last |
| PriceHistory.PriceRing.CalculateTWAP | oracle/src/services/price-history.ts:152-221 | the accumulating loop computes the average of the entries in the period |
| PriceHistory.TotalTimeTelescopes | oracle/src/services/price-history.ts:179-199 | the denominator is now minus the first timestamp, whatever the timestamps |
| PriceHistory.NumeratorIsSumOverSeconds | oracle/src/services/price-history.ts:179-199 | the numerator is the price in force added up over every second |
| PriceHistory.TwapIsMeanPrice | oracle/src/services/price-history.ts:152-221 | the average exists if and only if two entries lie in the period and the first is in the past; it is then the truncated mean price over every second since, reported with the number of entries and their first and last times, and lies between the least and the greatest price |
| TransactionBuilder.Create | api/src/services/transactionBuilder.service.ts:29-69 | the step count is checked, and a new transaction has all steps pending and its deadline set |
| TransactionBuilder.MultiStepTransaction.BeginPrepare | api/src/services/transactionBuilder.service.ts:71-87 | only the current, pending step of an active transaction gets to the network |
| TransactionBuilder.MultiStepTransaction.EndPrepare | api/src/services/transactionBuilder.service.ts:82-98 | when the network answers, the step is approved and the transaction active, whatever has happened meanwhile |
| TransactionBuilder.MultiStepTransaction.BeginApproval | api/src/services/transactionBuilder.service.ts:100-115 | only an approved step of an active transaction is submitted |
| TransactionBuilder.MultiStepTransaction.EndApproval | api/src/services/transactionBuilder.service.ts:117-142 | the network's answer completes the step or fails the transaction |
| TransactionBuilder.MultiStepTransaction.RejectStep | api/src/services/transactionBuilder.service.ts:144-157 | the step is rejected and the transaction failed |
| TransactionBuilder.MultiStepTransaction.GetTransaction | api/src/services/transactionBuilder.service.ts:159-168 | looking past the deadline marks an unfinished transaction expired |
| TransactionBuilder.MultiStepTransaction.AssertActive | api/src/services/transactionBuilder.service.ts:198-212 | what an inactive transaction or an unknown step is refused with; a late call marks it expired, completed or not |
| TransactionBuilder.MultiStepTransaction.MarkExpiredNow | api/src/services/transactionBuilder.service.ts:220-230 | the loop expires the pending and approved steps only |
| TransactionBuilder.StepsSubmittedInOrder | api/src/services/transactionBuilder.service.ts:71-157 | in every interleaving in which no preparation ended on a step submitted before, the submitted steps are 0, 1, 2, ..., each once; before the deadline those below the current step are completed and those above pending, but for rejected ones |
| TransactionBuilder.OrderBreaksExactly | api/src/services/transactionBuilder.service.ts:82-115 | in order so far, the end of a preparation lets a later call submit out of order or twice if and only if its step was submitted before |
| TransactionBuilder.StepSentTwice | api/src/services/transactionBuilder.service.ts:71-115 | a run that submits step 0 twice |
| TransactionBuilder.NothingSubmittedOnceOver | api/src/services/transactionBuilder.service.ts:100-142 | nothing is submitted after the deadline, on a completed or failed transaction, or after any failure that no awaited answer ended |
| TransactionBuilder.FailureUndoneExactly | api/src/services/transactionBuilder.service.ts:82-142 | after any run that leaves a transaction failed, some continuation takes it out of its failure if and only if a preparation or submission is still awaited |
| TransactionBuilder.RejectedStepIsSent | api/src/services/transactionBuilder.service.ts:82-157 | a run in which a rejected step is submitted |
| TransactionBuilder.RejectedTransactionSubmitsAgain | api/src/services/transactionBuilder.service.ts:100-157 | a run in which a rejected transaction submits its next step |
| TransactionHistory.StatusExactly | api/src/services/transactionBuilder.service.ts:71-230 | in every run the transaction has a status if and only if an operation brought it and none after it brought another: completed by a successful answer for the last step, failed by a failed answer or a rejection, expired by a late call or look |
| TransactionHistory.StepStatusExactly | api/src/services/transactionBuilder.service.ts:71-230 | the same for the status of each step |
| TransactionHistory.CurrentStepExactly | api/src/services/transactionBuilder.service.ts:124-131 | the current step is the one behind the last successful answer, or the first |
| TransactionHistory.CompletedHasSentAll | api/src/services/transactionBuilder.service.ts:71-142 | a completed transaction has sent all its steps, each once, in order, if no preparation ended on a step sent before; and all are completed before the deadline if no answer ended a failure |
| TransactionHistory.RepliesExactly | api/src/services/transactionBuilder.service.ts:71-212 | in every run, exactly when a preparation, an approval and a rejection are accepted, and which error they get otherwise |
| TransactionHistory.CallsAreAccountedFor | api/src/services/transactionBuilder.service.ts:71-142 | in every run what was sent is what accepted approvals name, in order, and each of it is answered or awaited, as each preparation begun is over or awaited |
| TransactionHistory.FlagsExactly | api/src/services/transactionBuilder.service.ts:82-157 | a failure, an answer that ends one, and a preparation ending on a step sent before are recorded if and only if an operation of the run was one |
| ClaimsLifecycle.ClaimRepository.FindById | oracle/src/claims/claim-repository.ts:138-146 | a found claim is moved to the end of the store |
| ClaimsLifecycle.ClaimRepository.Persist | oracle/src/claims/claim-repository.ts:184-200 | a new claim pushes the oldest out of a full store, a known one moves to the end |
| ClaimsLifecycle.ClaimRepository.Create | oracle/src/claims/claim-repository.ts:50-79 | a claim starts Pending with one history entry |
| ClaimsLifecycle.ClaimRepository.MoveTo | oracle/src/claims/claim-repository.ts:103-134 | the status changes and one history entry records from where to where |
| ClaimsLifecycle.DisputeManager.Open | oracle/src/claims/dispute-manager.ts:57-111 | which claims may be disputed, and once only |
| ClaimsLifecycle.DisputeManager.Resolve | oracle/src/claims/dispute-manager.ts:123-183 | an open dispute is resolved once and moves the claim by its resolution |
| ClaimsLifecycle.ClaimsService.SubmitClaim | oracle/src/claims/claims-service.ts:130-172 | creation and verification up to the await of the oracle, or rejection for fraud |
| ClaimsLifecycle.ClaimsService.FinishSubmission | oracle/src/claims/claims-service.ts:172-240 | the status decided from the oracle's answer, whatever the claim's status is by then; an evicted claim makes it throw |
| ClaimsLifecycle.ClaimsService.VerifyClaim | oracle/src/claims/claims-service.ts:283-297 | which claims are verified again, up to the await of the oracle |
| ClaimsLifecycle.ClaimsService.FinishVerification | oracle/src/claims/claims-service.ts:297-317 | the claim is saved, put back if it was evicted, and moved by the answer, whatever its status is by then |
| ClaimsLifecycle.ClaimsService.Payout | oracle/src/claims/claims-service.ts:253-275 | only an approved claim is paid out, with its transaction hash stored |
| ClaimsLifecycle.EveryTrailIsSound | oracle/src/claims/claim-repository.ts:103-134 | in every interleaving each claim's history starts at Pending, chains by possible moves to the claim's status, has Disputed at most once and PaidOut from Approved only; unless an answer came late PaidOut is last and unique; the store keeps its bound |
| ClaimsLifecycle.PaidOutIsFinal | oracle/src/claims/claims-service.ts:253-275 | PaidOut occurs at most once in a sound history, last, entered from Approved |
| ClaimsLifecycle.PaidOutFinalExactly | oracle/src/claims/claims-service.ts:253-317 | after any run that leaves a claim paid out, some continuation changes the claim if and only if an answer that finds it is still awaited |
| ClaimsLifecycle.PaidTwice | oracle/src/claims/claims-service.ts:253-317 | a run after which a claim was paid out twice |
| ClaimsHistory.MovesExactly | oracle/src/claims/claims-service.ts:130-317 | in every reachable state each operation moves a claim exactly as answers, resolutions and the fallback setting say, adds exactly that entry to its history, and touches no other claim |
| ClaimsHistory.CreatedExactly | oracle/src/claims/claims-service.ts:130-172 | a claim comes into being by its submission only, Verifying, or Rejected for fraud |
| ClaimsHistory.EveryEntryHasCause | oracle/src/claims/claims-service.ts:130-317 | in every run each entry of each history was made by an operation that enters its status |
| ClaimsHistory.NothingApprovedUngranted | oracle/src/claims/claims-service.ts:172-317 | a claim is Approved or PaidOut only in a run in which the oracle passed it or a dispute was resolved as approved |
| ClaimsHistory.RepliesExactly | oracle/src/claims/claims-service.ts:253-297 | re-verification and payout are accepted exactly when they move the claim |
| ClaimsHistory.DisputeRepliesExactly | oracle/src/claims/dispute-manager.ts:57-183 | so are opening and resolving a dispute, with the error of every refusal |
| ClaimsHistory.DisputesFollow | oracle/src/claims/dispute-manager.ts:57-183 | a dispute is recorded and resolved exactly by the operations that move its claim so |
| ClaimsHistory.AwaitsFollow | oracle/src/claims/claims-service.ts:172-317 | which calls await the oracle after each operation |
| ClaimsHistory.StoreOrderIsUseOrder | oracle/src/claims/claim-repository.ts:138-200 | in every run the store is ordered by last use |
| ClaimsHistory.EvictsLeastRecentlyUsed | oracle/src/claims/claim-repository.ts:184-200 | a claim is evicted if and only if one not stored is saved to a full store and every other stored claim was used later |
| PayoutCalculator.PayoutWithinBounds | oracle/src/claims/payout-calculator.ts:65-134 | 0 <= net <= capped <= coverage limit under truncation, and the discount takes at most half |
| PayoutCalculator.PayoutMonotone | oracle/src/claims/payout-calculator.ts:65-134 | the payout never falls when claimed amount, coverage limit or confidence rises |
| PayoutCalculator.PayoutExplained | oracle/src/claims/payout-calculator.ts:65-134 | each amount of a payout by what it is a share of: the deductible of the capped amount, the discount per missing point of confidence, the net amount, and its value in dollars |
| CsvLines.ParseCsvLine | api/src/utils/importExport.ts:66-97 | the character loop with its two flags computes the recursive reading of the line, trimmed |
| CsvLines.FieldsOfRendering | api/src/utils/importExport.ts:66-97 | reading a line rendered by RFC 4180 gives back every field, whatever it contains |
| CsvLines.ParseInvertsRender | api/src/utils/importExport.ts:66-97 | the parsed fields equal the rendered ones if and only if none has white space at its ends |
| CsvLines.PiecesAreRead | api/src/utils/importExport.ts:66-97 | fields that change between plain and quoted anywhere are read as their pieces put together; only a comma outside quotes ends one |
| CsvLines.UnclosedQuoteTakesRest | api/src/utils/importExport.ts:74-84 | a quote that is not closed takes in the rest of the line |
| CsvLines.TrimExactly | api/src/utils/importExport.ts:95-96 | trimming gives the one part without white space at its ends that has only white space around it |
| SubscriptionImport.ValidateImport | api/src/utils/importExport.ts:348-448 | the loop over the rows with its set and counters yields the errors, accepted rows and summary specified |
| SubscriptionImport.RowsAreAccounted | api/src/utils/importExport.ts:426-443 | valid plus invalid rows are all rows, and creates, updates and skips are the valid ones |
| ImportOutcome.ErrorsExactly | api/src/utils/importExport.ts:226-393 | an error is reported if and only if its row has that column wrong, or is good and its identifier came before or may not be updated; under the row's line number |
| ImportOutcome.DraftExactly | api/src/utils/importExport.ts:300-317 | a good row becomes the subscription with each field from its own column, and no other |
| ImportOutcome.RowsExactly | api/src/utils/importExport.ts:361-424 | the accepted rows are exactly the good ones without a clash, each created, updated or skipped by what is known under its identifier |
| ImportOutcome.RowsInOrder | api/src/utils/importExport.ts:361-424 | they come in the order of the input |
| ImportOutcome.FiledExactly | api/src/utils/importExport.ts:355-355 | of several records with one identifier the last counts |
| ImportOutcome.ActionsAreCounted | api/src/utils/importExport.ts:427-429 | each counter is the number of accepted rows with its action |
| SubscriptionImport.ImportSubscriptions | api/src/utils/importExport.ts:450-541 | an import with errors changes nothing; otherwise the counters and the sorted records are as specified |
| SubscriptionImport.ImportEffect | api/src/utils/importExport.ts:484-512 | per identifier, the record ends with its row's values and keeps its creation time; all others are untouched |
| ImportOutcome.ImportExactly | api/src/utils/importExport.ts:450-541 | an import completes if and only if no row draws an error, and changes nothing otherwise; completed, it returns exactly the records it does not name and what each row becomes, creation and update times included, sorted, one for each identifier |
| SubscriptionImport.ImportTwice | api/src/utils/importExport.ts:385-516 | running a completed import again on its own result skips every row and returns the same records |

## Left out

- Wrap-around of block numbers and timestamps: `u64` is unbounded here, so `to_block + 1` and `now + ttl` do not overflow.
- PointersFollowFrontier: runs without failed writes, and with reorganisations that nothing interrupts; the others are the subject of FailedWriteHiddenExactly and InterruptedReorgSettlesExactly.
- InterruptedReorgSettlesExactly: one reorganisation at a positive block at a time, and writes that succeed; the rows are reset in one step.
- EventsMissingExactly: one reorganisation at a time and writes that succeed, in a run that missed nothing before; any other run is the subject of StoredExactly.
- StoredExactly: an identity belongs to one contract and one block.
- Failing database operations inside `handle_reorg`, which end it early (parallel_indexer.rs:685-697).
- Worker retries, the reorg signal, the semaphore, the `is_active` filter, metrics, indexer caches and real-time publishing; a round of the dispatcher reads the pointer when it sends.
- FittingRoundReachesTip: one way; that a frontier stops inside a task otherwise depends on the order in which results come.
- LateRegistrationStallsExactly: reorganisations are at positive blocks and are not interrupted.
- ReleasedEventsAreStored: runs of the same kind, the others being the subject of StoredExactly, EventsMissingExactly and EventExactly; an event's identity belongs to one contract.
- The Redis path, `PriceCache` and the hit rate of the oracle cache, and statistics of the on-chain cache other than its two counters.
- Token contracts, signature checks, pause storage and the fee formula of the lending contract: they are answers carried by the call tree, so the pool's token balance is not related to the ledgers; `initial_balance + fee` traps on overflow.
- Setters of cap and minimum deposit, and the read-only queries of the lending contract.
- SHA-256: any function from strings to digests of 64 characters.
- OwnProofAcceptedExactly: raw leaves that are literally the text of a pair of the same tree; OtherLengthIsNoPair excludes all raw leaves but those of two digests' length.
- Confidence values, provider selection, circuit breakers and fetching of the price aggregator; IEEE rounding of weights.
- WeightedMedian: says what the result means for non-negative weights only.
- The map of histories by upper-cased asset name: one asset's ring is modelled.
- Requests to the rate limiter are serialised by the promise chain, which is taken as given.
- Fraud detection and oracle verification of claims, whose outcomes are parameters; rejection reasons, timestamps, descriptions and statistics of claims.
- The transaction service's listing and clean-up of transactions, step identifiers (indices here), and the network errors' texts.
- Splitting of CSV text into lines, JSON input, the regular expressions and date normalisers of the import columns (a column is missing, invalid or valid), the row limit, the preview cut and the import history entry.
- HTTP controllers, routes, configuration, logging, and the contracts whose source is not in the repository.
