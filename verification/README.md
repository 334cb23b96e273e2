# Hot/cold ERC-20 indexer: a verified model

The indexer keeps ERC-20 transfers in two lanes. The *cold* lane is written by the backfill worker and trails the
chain head by a confirmation depth. The *hot* lane is written by the live worker and follows the head; the backfill
worker deletes from it when it promotes blocks. Each worker has a checkpoint, and each revalidates a window of
stored block hashes before it goes on, because the chain may be reorganised at any time. This project models both
workers, the storage transactions they use, the decoder, the partition loop, the query view, the address text
functions and the rolling throughput window, and proves what they keep.

## How the model is built

- `Chain`, `Payload`, `Lanes`, `Storage`: the chain as the provider shows it, range builds, the two lanes as maps
  keyed by their primary keys, and the transactions. `Storage.Database` is the class with the six tables as fields
  that its methods update; each method equals a function on the stored state.
- `Protocol`: the two workers as a state machine. `Apply` is one atomic action, `Exec` a run of any actions in any
  order. Answers of the provider travel with the actions and are arbitrary.
- `Rpc`: the provider as arbitrary answer tables, one entry per call number and question; `faults` counts the calls that
  had no answer, or an answer with a log that lacks a field.
- `Traces`, `Ingestion`: the worker loops as methods of a class. Every database action is recorded; `Valid`
  says that the tables are in the state that the protocol reaches by the recorded actions, so every theorem about runs
  holds of the tables. At every await point the other worker may perform any actions that its script names.
- `Integrity`, `Coverage`, `HotWindow`, `ColdAgreement`, `HotAgreement`, `Convergence`, `LiveConvergence`,
  `Interleaving`, `Rounds`, `ApiView`, `QueryView`: the theorems about runs. `Examples`: concrete runs behind the
  exceptions. `Decoder`, `Partitions`, `AddressText`, `Throughput`: the remaining parts.

## Assumptions

- Each public storage function is one atomic step. The code opens plain transactions, and PostgreSQL's default level,
  Read Committed, promises less than that.
- `start_block` is fixed and at least 1. `Convergence.StartZeroNeverStarts` shows why: with 0, and only with 0, the
  backfill of an empty database rolls back for ever without changing anything.
- Block numbers stay below 2^63, so that the `as i64` casts keep them (`Types.CastsKeepWhatFits`).
- The module `Integrity` and the modules `Coverage` and `HotWindow` assume nothing about the provider: every call may
  show another chain or fail. `ColdAgreement`, `HotAgreement`, `Convergence`, `LiveConvergence`, `Interleaving`,
  `Rounds`, `QueryView` and the last part of `ApiView` assume that the answers of one loop iteration come from one
  chain (`BackFaithful`, `LiveFaithful`); between iterations the chain changes arbitrarily.
- A block hash fixes its parent's hash, its timestamp and its logs (`Chain.Ledger`). That it fixes all ancestors is
  proved (`Chain.SameAncestors`).
- One query reads one snapshot. For `erc20Transfers` that is one statement; `indexer_status` runs five statements outside
  a transaction, and the workers may act between them.
- A provider error ends the iteration; tables stay as they are. A crash is the end of a run at any action, and a restart
  of the live worker is the action `LiveAbort`.

## Where the code is not what one would expect

- The README of the repository (lines 123-131) says that a rollback starts at the first bad block. The code starts at the
  first bad block *of the window*; a reorganisation deeper than the window takes several iterations, exactly
  `ceil(D/W)` of them.
- It says (line 46) that only blocks older than `latest - CONFIRMATION_DEPTH` are finalized. The code also finalizes the
  block at exactly that height, which is the safe head: at rest the next block to finalize lies above it
  (`QueryView.RestPosition`), and every backfill that does not fail comes to rest (`Convergence.BackfillConverges`).
- It says (line 152) that live indexing starts at `latest - LIVE_START_DEPTH + 1`. The code takes the largest of four
  depths (`Protocol.WindowSizes`).
- No gap across the lanes is *false* when a finalized rollback lands between a read of the live worker and its write, and
  not only for hot commits: a hot rollback can open a gap too. `Coverage.GaplessExactly` gives the exact condition
  and `Examples` a run for each case.
- Disjoint lanes are *false* in general (`ApiView.LanesDisjointExactly`, `Examples.LanesCanOverlap`), and so is healing of
  deep reorganisations in the hot lane (`HotAgreement.HotHealsExactlyItsWindow`, `Examples.DeepReorgStays`).
- At rest of both workers, the blocks from the next one to finalize to the prune bound are in no lane
  (`QueryView.RestCoversExactly`). With heads that never decrease that is so if and only if the confirmation depth is
  above the live depth and the chain has more blocks from the start block on than the live depth (`QueryView.DepthsDecideCoverage`;
  `Examples.RestCanLeaveBlocksOut` reaches such a rest). After the chain shrank, blocks finalized before can fill the
  hole (`Examples.ShrunkChainsCanBeCovered`).
- A backfill that meets a chain whose head is below its checkpoint cannot go on: it fails again until the chain is longer,
  unless it finds a mismatch first (`Convergence.FailsExactly`, `Examples.BackfillCanGetStuck`).

## Model

| member | source | states |
|---|---|---|
| ColdAgreement.CleanWindowMeansColdAgrees | crates/ingestion/src/lib.rs:285-322 | Over any run, after reorganisations of any depth: when the window check passes, every cold block from the start block to the checkpoint is on the chain, and the lane is that chain's index, although only the window was compared |
| ColdAgreement.ColdLaneIsLinkedAndComplete | crates/ingestion/src/lib.rs:56-98 | In every state of such a run neighbouring cold blocks are parent and child, and the cold transfers are exactly the decoded, filtered logs of the cold blocks |
| ColdAgreement.ExtendCold | crates/storage/src/lib.rs:111-132 | A finalized batch on a lane whose window is clean equals indexing its blocks one by one, and keeps links, completeness and agreement |
| ColdAgreement.StaleIsSuffix | crates/ingestion/src/lib.rs:295-319 | Once one stored cold block is stale, all later ones are |
| ColdAgreement.RollbackIsMinimal | crates/ingestion/src/lib.rs:295-319 | A finalized rollback deletes no cold block that the chain still has, and leaves no stale block in the window |
| ColdAgreement.FinalizedNeverRollsBack | crates/ingestion/src/lib.rs:57-77 | If no reorganisation changes a block buried by the confirmation depth, none of the rollback branches is ever taken |
| ColdAgreement.FinalizedOnlyGrows | crates/ingestion/src/lib.rs:57-77 | Under the same condition the checkpoint never decreases and cold blocks and transfers are never changed or removed, between any two points of the run |
| ColdAgreement.CommitsAreBuried | crates/ingestion/src/lib.rs:58-76 | A finalized range has exactly those of the next ten blocks that have confirmation-depth blocks above them |
| Convergence.BackfillConverges | crates/ingestion/src/lib.rs:56-107 | From any reachable state on a chain that stays, unless the first iteration fails: exactly ceil(D/W) rollbacks for D stale blocks and window W, exactly ceil(missing/10) commits, then rest with the cold lane equal to the naive index |
| Convergence.Progress | crates/ingestion/src/lib.rs:56-107 | The termination measure: a rollback removes exactly one window of stale blocks and keeps the frontier, a commit happens only on a clean lane and removes up to ten missing blocks, and otherwise nothing is stale or missing |
| Convergence.SettleCounts | crates/ingestion/src/lib.rs:290-293 | The two counts and the resting checkpoint, for all ready states |
| Convergence.StaleCount | crates/ingestion/src/lib.rs:295-319 | The number of stale blocks is the distance from the lowest stale block to the next block to finalize |
| Convergence.StepIsEvent | crates/ingestion/src/lib.rs:56-98 | An iteration on one chain that does not fail is one enabled, faithful action of the protocol |
| Convergence.FailsExactly | crates/ingestion/src/lib.rs:456-470 | An iteration fails if and only if something has been finalized, the chain's head is below the checkpoint, and the window has no mismatch up to the head |
| Convergence.StartZeroNeverStarts | crates/ingestion/src/lib.rs:63-69 | On an empty database an iteration is a rollback without effect if and only if the start block is 0 |
| LiveConvergence.LiveConverges | crates/ingestion/src/lib.rs:110-165 | From any reachable state on a chain that stays, the live loop alone does one rollback if its window holds a stale block and none otherwise, then exactly ceil(missing/10) commits, and rests with the repaired lane extended block by block to the head |
| LiveConvergence.LiveProgress | crates/ingestion/src/lib.rs:118-154 | The termination measure: a rollback repairs the window for good, a commit removes up to ten missing blocks, rest means none is missing |
| LiveConvergence.IterationIsLiveStep | crates/ingestion/src/lib.rs:118-154 | Every finished live iteration of a run without backfill actions in between has exactly the effect of the step on its chain |
| LiveConvergence.TallyGoesOn | crates/ingestion/src/lib.rs:118-154 | While the backfill at most promotes, the account of rollbacks, commits and missing blocks adds up after every live iteration: one rollback at most, to a stale block; each commit takes up to ten missing blocks; at rest none is missing, and the lane is pruned and clean |
| LiveConvergence.IterationEnds | crates/ingestion/src/lib.rs:118-154 | Pruning, revalidation and extension together leave a pruned lane with a clean window and the next range of the chain, whatever rows were deleted in between; and exactly the step's tables when none were |
| LiveConvergence.CommitIsAdded | crates/storage/src/lib.rs:144-166 | One hot commit is its blocks added one by one, with the checkpoint at the last |
| Interleaving.WritesAreBounded | crates/ingestion/src/lib.rs:47-165 | On a chain that stays, from any state between two live iterations and in every interleaving of both workers' actions: at most ceil(D/W) finalized rollbacks, ceil(missing/10) finalized commits, one hot rollback, and the hot commits that the blocks left and one whole chain for each rollback take |
| Interleaving.ColdWritesAddUp | crates/ingestion/src/lib.rs:47-108 | In every such interleaving, at every point, the finalized rollbacks and commits done and those still needed add up to the two predicted counts |
| Interleaving.OneHotRollback | crates/ingestion/src/lib.rs:118-154 | In every such interleaving the live worker rolls back at most once, only if it had a stale block or a condemned one in the beginning, and is mended for good afterwards |
| Interleaving.HotCommitsAreBounded | crates/ingestion/src/lib.rs:118-154 | In every such interleaving only rollbacks give the live worker more to index, and each of its commits takes up to ten blocks off |
| Interleaving.BackWriteIsNext | crates/ingestion/src/lib.rs:56-98 | A faithful write of the backfill on this chain is the one that the step on the chain prescribes, whatever live actions came before it |
| Interleaving.FinalizedRollbackLeaves | crates/storage/src/lib.rs:168-184 | An enabled finalized rollback to block n leaves exactly the rows below n in both lanes, and both checkpoints at n - 1 |
| Interleaving.NextLiveRange | crates/ingestion/src/lib.rs:128-135 | After a finalized rollback to block n in any run, until the live checkpoint is written again, the next live range starts at n, or at the live start where that is higher, and has at most ten blocks |
| Rounds.BothWorkersRest | crates/ingestion/src/lib.rs:47-165 | Every interleaving on a chain that stays in which both workers complete an iteration more often than there can be writes ends with both at rest |
| Rounds.RestIsFinal | crates/ingestion/src/lib.rs:100-164 | Once both are at rest, no action of either worker on that chain changes the tables |
| Rounds.QuietStretch | crates/ingestion/src/lib.rs:100-164 | A worker that completed an iteration in a stretch of the run without a write has nothing left to do |
| Types.CeilDivRoundsUp | crates/ingestion/src/lib.rs:75-76 | The batch count is the quotient rounded up |
| Coverage.WriteGap | crates/storage/src/lib.rs:144-195 | A hot commit or hot rollback leaves a gap if and only if its lower bound lies above both checkpoints by more than one and above the prune bound |
| Coverage.GaplessExactly | crates/ingestion/src/lib.rs:118-154 | A run has no gap between the highest prune bound and the live checkpoint at any time if and only if each live write was bridged when it happened |
| Coverage.OtherStepsKeepGapless | crates/storage/src/lib.rs:111-221 | Promotion, pruning, finalized rollbacks and all reads never open a gap |
| Coverage.UndisturbedRunsHaveNoGaps | crates/ingestion/src/lib.rs:118-154 | Without a finalized rollback below a pending live write no gap ever opens |
| Coverage.RollbackUnbridges | crates/storage/src/lib.rs:168-184 | A finalized rollback unbridges a bridged pending write if and only if it goes below it and the write lies above the prune bound |
| Examples.CommitCanLeaveGap | crates/ingestion/src/lib.rs:128-154 | A run with consistent answers in which a hot commit leaves a block in no lane |
| Examples.HotRollbackCanLeaveGap | crates/ingestion/src/lib.rs:276-283 | The same for a hot rollback |
| Examples.LanesCanOverlap | crates/ingestion/src/lib.rs:472-481 | A run in which the live worker adds finalized blocks to the hot lane again |
| Examples.RestCanLeaveBlocksOut | crates/ingestion/src/lib.rs:72-130 | A run of both workers that comes to rest on a chain of four blocks with block 2 in no lane |
| Examples.ShrunkChainsCanBeCovered | crates/ingestion/src/lib.rs:72-130 | A run that comes to rest with every block in some lane although the depths do not meet, because the chain shrank |
| Examples.BackfillCanGetStuck | crates/ingestion/src/lib.rs:456-470 | A run after which the backfill fails on a chain cut down below its checkpoint |
| Examples.DeepReorgStays | crates/ingestion/src/lib.rs:329-331 | A run in which the hot lane keeps a stale block below its window and is no chain |
| HotAgreement.ShallowReorgsAreHealed | crates/ingestion/src/lib.rs:324-348 | If heads never decrease and reorganisations stay inside the validation window, every hot block is on the chain of the last finished live iteration, in every state, whatever the backfill deletes |
| HotAgreement.HotHealsExactlyItsWindow | crates/ingestion/src/lib.rs:118-154 | After an iteration that ends with a commit or at rest, the hot lane agrees with its chain if and only if the backfill meanwhile deleted every row that was stale outside the validation window in the tables right after the iteration's prune |
| HotAgreement.RollbackHealsExactly | crates/ingestion/src/lib.rs:338-344 | After an iteration that ends with a rollback, the hot lane agrees with its chain if and only if the backfill meanwhile deleted every row that was stale below the window right after the prune |
| HotAgreement.UndisturbedHealsExactly | crates/ingestion/src/lib.rs:118-154 | Without backfill actions in between, the lane agrees in the end if and only if the rows outside the window agreed right after the prune |
| HotAgreement.UndisturbedRollbackHealsExactly | crates/ingestion/src/lib.rs:338-344 | The same for an iteration that ends with a rollback: only the rows below the window matter |
| HotAgreement.HotSinceBegin | crates/ingestion/src/lib.rs:118-154 | Until its last action, an iteration's hot blocks are those right after the prune, less exactly those that a backfill action deleted |
| HotAgreement.HotLaneIsComplete | crates/ingestion/src/lib.rs:350-442 | In every state of such a run the hot transfers are exactly the decoded, filtered logs of the hot blocks |
| HotAgreement.HotOnlyShrinks | crates/ingestion/src/lib.rs:241-248 | Only a hot commit adds rows to the hot lane or changes them; every other action leaves a part of it, blocks and their transfers together |
| HotWindow.HotLaneIsBounded | crates/ingestion/src/lib.rs:118-154 | With heads that never decrease the hot lane never holds more than max(live_start_depth, hot_window_size, reorg_lookback, 1) blocks |
| HotWindow.LiveOnlyHotIsInterval | crates/ingestion/src/lib.rs:118-154 | With the live worker alone the hot blocks are empty or one interval ending at the live checkpoint, for any answers |
| Integrity.AlwaysInv | crates/ingestion/src/lib.rs:47-165 | The invariant of all runs, all interleavings, all answers |
| Integrity.ColdLaneIsContiguous | crates/ingestion/src/lib.rs:309-317 | Cold blocks are exactly start_block..checkpoint, so the missing-metadata branch and the conflict branch never fire |
| Integrity.TransfersHaveBlocks | crates/storage/src/lib.rs:274-356 | Every transfer of a lane has a block row there with its number and hash, despite DO NOTHING on transfers and DO UPDATE on blocks |
| Integrity.WorkersMeetInHot | crates/storage/src/lib.rs:111-184 | The backfill only deletes from the hot lane, and the live worker never touches the cold lane or its checkpoint |
| Integrity.HotStaysBelowCheckpoint | crates/storage/src/lib.rs:144-195 | Every hot block is at most the live checkpoint in all interleavings |
| Integrity.HotCommitsMeetNoRows | crates/storage/src/lib.rs:157-165 | A hot commit meets no stored row; exactly the distinct keys of the payload are inserted |
| Integrity.ColdCommitsMeetNoRows | crates/storage/src/lib.rs:133-141 | The same for finalized commits |
| Integrity.HotValidationNeverFires | crates/ingestion/src/lib.rs:227-239 | The validation before a hot commit never calls for a rollback |
| ApiView.PromotionConserves | crates/storage/src/lib.rs:111-132 | A promotion leaves the combined multiset of rows unchanged if and only if the evicted hot rows are the promoted rows |
| ApiView.EvictedIsBatch | crates/api/src/schema.rs:93-117 | A complete hot lane that holds a chain's range evicts exactly the rows that promoting that range brings |
| ApiView.PromotionIsInvisible | crates/api/src/schema.rs:93-117 | In runs whose iterations saw one chain each, promoting a range held in hot with the same hashes changes no query result |
| ApiView.DisjointExactly | crates/ingestion/src/lib.rs:472-481 | Disjoint lanes stay disjoint under an action if and only if it is not a hot commit that starts at or below the finalized checkpoint |
| ApiView.LanesDisjointExactly | crates/ingestion/src/lib.rs:118-154 | Over a whole run no block is ever in both lanes if and only if every hot commit starts above the finalized checkpoint of its time |
| ApiView.StatusMatchesCheckpoints | crates/api/src/schema.rs:165-210 | In every reachable state, read as one snapshot: both counts are those of the lanes, the three maxima are the highest blocks of the finalized lane, the hot lane and both together, none when there is none; finalized count and maximum agree with the checkpoint, and no reported maximum exceeds its checkpoint |
| ApiView.CombinedCounts | crates/api/src/schema.rs:93-117 | The UNION ALL counts a row once for each lane that stores it, twice while the lanes overlap in it |
| QueryView.QueriesReadTheChain | crates/api/src/schema.rs:93-117 | In runs whose iterations saw one chain each: with a clean cold window, a hot lane that agrees, disjoint lanes, no gap and pruning not ahead of finalization, the combined rows are exactly the chain's index from the start block on, each row once |
| QueryView.RestCoversExactly | crates/ingestion/src/lib.rs:72-130 | When the next iteration of each worker would change nothing, the blocks of the chain in no lane are exactly those from the next block to finalize to the prune bound; all are in some lane if and only if pruning has not outrun finalization or all are finalized |
| QueryView.RestPosition | crates/ingestion/src/lib.rs:72-130 | At rest the next block to finalize lies above the safe head, the window is clean, and the live checkpoint has reached the head if the chain has a block to index |
| QueryView.DepthsDecideCoverage | crates/ingestion/src/lib.rs:472-481 | With heads that never decrease for both workers, a rest covers the chain if and only if the confirmation depth is at most the live depth or the chain has at most so many blocks from the start block on |
| QueryView.WindowsMeetOnEveryChain | crates/ingestion/src/lib.rs:472-481 | The condition holds for every head if and only if the confirmation depth is at most the live depth |
| QueryView.RestServesTheChain | crates/api/src/schema.rs:93-117 | At rest, with pruning not ahead of finalization and lanes that agree, are disjoint and have no gap, a query reads the index of the whole chain |
| QueryView.OrderlyRestServesTheChain | crates/api/src/schema.rs:93-117 | The same from conditions on the run alone: one chain per iteration, heads that never decrease, reorganisations inside the window, no finalized rollback below a pending live write, hot commits above the finalized checkpoint, rest on the last live iteration's chain, and windows that meet |
| QueryView.UnionIsMerged | crates/api/src/schema.rs:93-117 | With disjoint lanes the UNION ALL is the multiset of rows of both lanes taken as one table |
| Chain.SameAncestors | crates/ingestion/src/lib.rs:298-299 | Two chains that share a block share everything below it |
| Chain.AgreementDescends | crates/ingestion/src/lib.rs:298-299 | In a linked store one agreeing block vouches for all stored blocks below it |
| Payload.BuildsExactly | crates/ingestion/src/lib.rs:388-423 | A build fails if and only if some log lacks what it needs; otherwise its rows describe exactly the transfer logs, in order, with the log's own block number, the hash and time of that block, and the casts of the code |
| Payload.BuildIsValid | crates/ingestion/src/lib.rs:360-429 | Whatever the provider answers, a finished build has one row per block and records that carry their block row's number and hash |
| Payload.BuildOfChain | crates/ingestion/src/lib.rs:350-442 | When all answers come from one chain, the build is exactly that chain's range |
| Payload.EventRecordsExactly | crates/ingestion/src/lib.rs:371-424 | A block's rows are exactly those of its transfer events of the configured contract, or of all contracts without one, each with the event's and the block's fields |
| Lanes.BatchIsNaive | crates/storage/src/lib.rs:274-356 | One batch insert equals adding its blocks one at a time |
| Lanes.CompleteIsNaive | crates/storage/src/lib.rs:274-356 | A complete lane that holds an interval of a chain is the naive index of that interval |
| Lanes.NaiveRows | crates/ingestion/src/lib.rs:371-424 | The naive index has a key if and only if some transfer event of the configured contract in a block of the range has it, and its row says what such an event and its block say |
| Lanes.InsertKeepsRows | crates/storage/src/lib.rs:323-351 | An insert that meets none of its block rows keeps referential integrity |
| Lanes.InsertedTransfers | crates/storage/src/lib.rs:323-326 | DO NOTHING keeps all old rows and adds only rows of the batch under their keys, none missing |
| Lanes.FirstRowStays | crates/storage/src/lib.rs:323-326 | Of several rows of a batch with one key, the first is stored unless the table has the key |
| Lanes.BlocksAfterInsert | crates/storage/src/lib.rs:348-351 | DO UPDATE leaves the batch's hash for each of its numbers and touches nothing else |
| Lanes.InsertCountsKeys | crates/storage/src/lib.rs:134-141 | With no conflicting row the table grows by the number of distinct keys |
| Storage.Database.CommitFinalizedRange | crates/storage/src/lib.rs:111-142 | New state and statistics of a finalized commit; every row stays in exactly one partition, and only partitions that the batch spans are created |
| Storage.Database.CommitHotRange | crates/storage/src/lib.rs:144-166 | New state and statistics of a hot commit |
| Storage.CommitFinalizedLeaves | crates/storage/src/lib.rs:111-142 | The cold lane gains the rows of the batch and keeps its own, the hot lane loses exactly the rows of the range, and only the finalized checkpoint moves |
| Storage.CommitHotLeaves | crates/storage/src/lib.rs:144-166 | The hot lane gains the rows of the batch and keeps its own, and only the live checkpoint moves |
| Storage.Database.RollbackFromBlock | crates/storage/src/lib.rs:168-184 | Each lane keeps exactly its rows below the given block, unchanged, and both checkpoints become the block minus one, saturating |
| Storage.Database.RollbackHotFromBlock | crates/storage/src/lib.rs:186-195 | The hot lane keeps exactly its rows below the given block and the live checkpoint becomes the block minus one; the cold side stays |
| Storage.Database.PruneHotBeforeBlock | crates/storage/src/lib.rs:197-221 | The hot lane keeps exactly its rows from the given block on; the cold lane and both checkpoints stay |
| Storage.InsertTransfersTx | crates/storage/src/lib.rs:274-327 | The insert loop is the DO NOTHING function, counts the rows that are new, creates the partitions that every row needs, and none outside the block numbers of the batch |
| Storage.BlockBounds | crates/storage/src/lib.rs:283-292 | The two bounds are the least and greatest block number of the batch |
| Partitions.EnsurePartitions | crates/storage/src/lib.rs:415-439 | Partitions stay aligned, each block of the range is in exactly one, only needed ones are new, and the loop visits last/100000 - first/100000 + 1 of them |
| Partitions.HeldOnceStays | crates/storage/src/lib.rs:424-436 | A row that has one partition keeps exactly one whatever later inserts create |
| Partitions.AlignedDisjoint | crates/storage/src/lib.rs:421-431 | Aligned partitions never overlap |
| Protocol.WindowSizes | crates/ingestion/src/lib.rs:472-481 | The live window, the hot validation window and the finalized window have exactly their depth, cut off at the floor |
| Types.CastsKeepWhatFits | crates/ingestion/src/lib.rs:408-411 | Both narrowing casts keep a value if and only if it fits, and otherwise lose a multiple of the word size |
| Protocol.SafeHeadExactly | crates/ingestion/src/lib.rs:57-58 | A block other than block 0 is at most the saturating safe head if and only if confirmation-depth blocks lie above it |
| Protocol.TwoHeads | crates/ingestion/src/lib.rs:118-130 | Of the two head answers of a live iteration, the first gives the live start, the prune bound and the end of the next range, and the second the window that is revalidated |
| Ingestion.Engine.RunBackfill | crates/ingestion/src/lib.rs:48-108 | On a chain that stays, from any reachable state and while the live worker does anything: the loop fails in its first iteration, with the cold lane as it was, or rests after the predicted numbers of rollbacks and commits with the naive index in the cold lane |
| Ingestion.Engine.RunLive | crates/ingestion/src/lib.rs:110-165 | On a chain that stays, from any reachable state and while the backfill finalizes ranges: the loop rests after at most one rollback, to a stale block, and exactly the commits that the blocks above the checkpoint or above that block take, with a pruned, clean lane indexed to the head; with an idle backfill the rollback happens exactly when needed and the lane is extended block by block |
| Ingestion.Engine.BackfillIteration | crates/ingestion/src/lib.rs:56-107 | For any answers: the iteration aborts if and only if one of its calls is unanswered or brings an incomplete log, and an iteration that aborts or rests changes nothing by itself; on one chain it ends and leaves the cold lane as the step prescribes, and keeps the run faithful |
| Ingestion.Engine.ReconcileFinalizedHistory | crates/ingestion/src/lib.rs:285-322 | The scanning loop finds the first bad block of the window, or a missing chain block, and rolls back exactly there; it fails exactly when a header is not answered |
| Ingestion.Engine.ProcessFinalizedRange | crates/ingestion/src/lib.rs:166-215 | For any answers: the range is given up with all tables and checkpoints as they were if and only if it cannot be built, and otherwise exactly the build of the answers is committed; a conflict only with a stored block above the checkpoint |
| Ingestion.Engine.ValidateFinalized | crates/ingestion/src/lib.rs:176-188 | The validation finds a block stored with another hash, or there is none |
| Ingestion.Engine.LiveIteration | crates/ingestion/src/lib.rs:118-163 | For any answers, the iteration aborts if and only if one of its calls is unanswered or brings an incomplete log, and with an idle backfill it has then pruned at most. With any backfill actions in between, one iteration leaves a pruned, complete lane with a clean window and has either rolled back to a stale block, or added exactly one range of the chain, or added nothing; it settles on the chain it saw, never takes the conflict branch, and the lane agrees with that chain when reorganisations stayed inside the window; with an idle backfill it leaves exactly the tables of the step |
| Ingestion.Engine.ReconcileHotHistory | crates/ingestion/src/lib.rs:324-348 | The scan revalidates below the head that it asks for itself, ends clean or with a rollback, and fails exactly when a call is not answered |
| Ingestion.Engine.ProcessHotRange | crates/ingestion/src/lib.rs:217-265 | For any answers: the range is given up with all tables as they were if and only if it cannot be built, and otherwise exactly the build of the answers is committed, interleaved with backfill deletes; no conflict ever |
| Ingestion.Engine.BuildRangePayload | crates/ingestion/src/lib.rs:350-442 | For any answers: the build succeeds if and only if every header and the log query of the configured contract are answered and no log lacks a field; then its rows are those of exactly these answers, in order; and they are the chain's range when all answers show one chain |
| Ingestion.Engine.FetchBlockMetadataRange | crates/ingestion/src/lib.rs:444-454 | One call per block in order; the answers if all of them arrive, and none as soon as one is missing |
| Ingestion.Engine.DecodeRange | crates/ingestion/src/lib.rs:384-424 | The decode loop ends with the first error or with all records, and counts distinct transactions |
| Ingestion.Engine.YieldToLive | crates/ingestion/src/lib.rs:110-165 | At an await point the live worker performs exactly the actions of the script, and leaves the cold lane and its checkpoint alone |
| Ingestion.Engine.YieldToBackfill | crates/ingestion/src/lib.rs:48-108 | The same for the backfill worker, which leaves the live worker's position and chain alone |
| Rpc.Provider.AnswersDecide | crates/ingestion/src/lib.rs:350-442 | For any answered calls, the build succeeds if and only if every log is whole, and its rows are those of the answers |
| Rpc.Provider.BuildShown | crates/ingestion/src/lib.rs:350-442 | When the calls of a build show a chain, it is the range of that chain, filtered by the contract that was asked for |
| Ingestion.NoHotClash | crates/ingestion/src/lib.rs:227-239 | No recorded run reaches a hot commit whose range meets a stored hot block |
| Traces.TraceIsRun | crates/ingestion/src/lib.rs:47-165 | What the worker methods record is a run of the protocol that ends in the current state |
| Rpc.Provider.BlockMetadata | crates/rpc/src/lib.rs:78-99 | The answer is labelled with the requested number |
| Decoder.DecodeInvertsEncode | crates/decoder/src/lib.rs:20-40 | Decoding the ABI encoding of any transfer returns it |
| Decoder.EncodeInvertsDecode | crates/decoder/src/lib.rs:20-40 | Whatever decodes is an encoding, up to the twelve ignored bytes of each address topic |
| Decoder.DecodesExactly | crates/decoder/src/lib.rs:20-40 | A log decodes if and only if it has three topics, 32 data bytes and the Transfer signature; sender and recipient are the last twenty bytes of the second and third topic, and the value has its first byte as the most significant one |
| Decoder.FirstByteIsHighest | crates/decoder/src/lib.rs:37 | The number of a byte string is its first byte times a power of 256, plus the number of the rest |
| Decoder.DecodedValueFits | migrations/001_create_erc20_transfers.sql:12 | Every decoded value is below 10^78, so NUMERIC(78,0) holds it |
| Decoder.WordFitsNumeric78 | migrations/001_create_erc20_transfers.sql:12 | 2^256 is at most 10^78 |
| AddressText.ParseOfFormat | crates/api/src/schema.rs:235-273 | Every 20-byte address survives printing and parsing |
| AddressText.FormatOfParse | crates/api/src/schema.rs:235-273 | Parsing and printing gives the lower-case 0x form of the trimmed input |
| AddressText.NormalizeTwice | crates/api/src/schema.rs:235-273 | Normalising twice is normalising once |
| AddressText.SameAddress | crates/api/src/schema.rs:235-253 | Two accepted texts parse to the same address if and only if they differ only in case, prefix and surrounding space |
| AddressText.AcceptsExactly | crates/api/src/schema.rs:235-246 | A text is accepted if and only if it is forty digits in either case, after an optional 0x or 0X, inside white space |
| AddressText.ReadsDigits | crates/api/src/schema.rs:248-252 | The forty digits, read from left to right as one base-16 number, are the number of the twenty bytes |
| AddressText.FormatPrints | crates/api/src/schema.rs:271-273 | The printed address is 0x and forty lower-case digits that denote the number of the bytes |
| AddressText.DigitsByPosition | crates/api/src/schema.rs:241-252 | A digit is a character of one of the two alphabets, and its value is its position there |
| AddressText.FormatHash | crates/api/src/schema.rs:275-287 | Both branches print 0x and two lower-case digits per byte, which denote the number of the bytes and decode to them |
| Throughput.RollingThroughput.Record | crates/observability/src/lib.rs:521-539 | For any clock the rates are those of the records from the first one on that is younger than window_secs, past those dropped before; at non-decreasing times they are the sums over all records younger than window_secs, with at most window_secs increasing buckets; the denominator is the number of the window's seconds since the first record, at least 1 |
| Throughput.RollingThroughput.Poll | crates/observability/src/lib.rs:541-545 | The same for a reading without a record |
| Throughput.RollingThroughput.Prune | crates/observability/src/lib.rs:547-552 | For any clock, pruning drops the kept records up to the first one that is younger than window_secs, and keeps all others |
| Throughput.RollingThroughput.SnapshotIsRate | crates/observability/src/lib.rs:554-568 | The rates of the pruned deque are those of the kept records, and of the window of the full history when the clock never went backwards |
| Throughput.RecordExtendsRuns | crates/observability/src/lib.rs:525-535 | Recording in the newest bucket or a new one keeps every bucket the sum of a run of records of its second |
| Throughput.GroupingKeepsTotals | crates/observability/src/lib.rs:554-556 | The sums over the buckets are the sums over the records they hold |
| Throughput.WindowIsSuffix | crates/observability/src/lib.rs:547-552 | Once the records before a cut are old and the others are not, the window of the full history is the rest |
| Throughput.WindowSize | crates/observability/src/lib.rs:547-552 | The seconds that are younger than the window are window_secs many, the current one included, unless time is younger |
| Throughput.RollingThroughput.DenominatorCounts | crates/observability/src/lib.rs:557-562 | The denominator is the number of the seconds of the window since the first record, at least 1 and at most window_secs |

## Left out

- Read Committed anomalies, connection pooling and SQL text: each storage function is one atomic step on maps.
- RPC transport, retries and backoff: a call answers or fails; `buffered` fetches are in block order, as the code collects them.
- keccak256: block hashes and transaction hashes are opaque identifiers, and a block hash fixes its parent and its logs.
- The endless loops: one iteration is one method; the two loops themselves are methods only on a chain that stays, where they come to rest.
- Ingestion.Engine.RunLive: excludes backfill rollbacks while the loop runs; what both workers do together in that case is `Interleaving.WritesAreBounded` and `Rounds.BothWorkersRest`, about runs of actions.
- Interleaving.HotCommitsAreBounded: a bound, not the exact number, because each rollback may lower the live checkpoint to any depth.
- Rounds.BothWorkersRest: that the scheduler lets both workers complete iterations is its hypothesis; a backfill that fails (`Convergence.FailsExactly`) completes none.
- Throughput.RollingThroughput.Record: rates are exact quotients, so u64 overflow of bucket sums and f64 rounding are not modelled.
- Throughput.RollingThroughput.Poll: the same.
- ApiView.StatusMatchesCheckpoints: reads one snapshot, while the code runs five statements outside a transaction, between which the workers may act.
- Block numbers, checkpoints and sequence lengths are unbounded naturals; only the casts of log index and timestamp are modelled with their width.
- Checkpoint arithmetic with saturating_add at 2^64 - 1: out of the range of the assumption on heights.
- Sleeping, poll intervals, configuration parsing, migrations, mode selection and process restarts other than as arbitrary ends of runs.
- Prometheus metrics, tracing, batch metrics and durations.
- The GraphQL server, filters, ordering, limit and offset: the combined rows before them are modelled.
- list_hot_blocks, list_hot_block_numbers, normalize_limit, normalize_offset, slowest_stage: single branches or not used by the workers.
- Changes of start block, contract filter or depths between runs: the configuration is fixed.
