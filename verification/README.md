# Verified models of leafage-evm

Dafny models of the parts of leafage-evm, an EVM state node, that are hardest to get right, with machine-checked
proofs of what they promise. `dafny verify dfyconfig.toml` checks everything.

| file | models |
|---|---|
| `FastLz.dfy` | the FastLZ length estimate behind the Fjord L1 fee, against the FastLZ level-1 block format and a table-free greedy parser |
| `Fees.dfy` | L1 and operator fees in saturating 256-bit arithmetic, read off the L1Block contract's storage byte by byte, and the handler's charge, refund, payment and cost cache |
| `Batching.dfy`, `Accumulator.dfy`, `Ingest.dfy`, `Loading.dfy` | the archive bulk load: encoding, sorting and deduplicating a batch, the reordering accumulator, the workers, the watermark advancer, crash and resume, the single-threaded writer, and all of them put together |
| `ArchiveRead.dfy` | reading a loaded archive at a height by one seek over the encoded keys, against a replay of the state diffs |
| `Repair.dfy` | the deleted-storage repair over both key encodings, against a block-by-block replay, and its recreation test against the lives of accounts |
| `BundleIndex.dfy`, `BundleRead.dfy` | the StateDiff bundle format and the range reader |
| `Catchup.dfy` | catch-up windows, the parent-hash backfill with its hand-off check, and the archive fetcher |
| `Rlp.dfy` | the comparison script's RLP decoder, against the encoding of Appendix B of the Ethereum Yellow Paper |
| `CodeCache.dfy` | scalar and batched code reads over the shared evicting cache |

Code that updates state in the source is a class or a method with loops here; each is proved against a specification
function or predicate, and what the source promises is proved about that specification.

Assumptions that stand in for code outside the models:

- Gas used is limit minus remaining minus refunded, with a refund that is not negative.
- The L1Block contract's storage is fixed per block number: the handler reloads its info only when the number changes,
  so info that goes stale under one number is not seen.
- For the supply theorems, execution moves balances without creating or destroying any, and the mainnet handler's
  upfront fee is what it reimburses, tips and pays as base fee.
- A crash keeps some prefix of the write-ahead log that includes the last synced entry, and ingested tables survive.
- Block and code hashes in the archive address their content.
- For the lives of accounts: contracts are destroyed only before the configured block, code changes in place only for
  the listed upgradable addresses or from that block on, and an account without code has no storage.
- Batched database reads answer one result per input, in order.
- The entry decoder of a bundle reads back what was written and never looks beyond what it takes; for the byte-for-byte
  round trip of a decoded bundle, it also accepts only the encoding of a value.
- The state tree accepts a block only below a known parent and resolves a number or the latest tag to some known block.
- An object read by hash carries that hash.
- The target is 64-bit, so an offset always fits `usize`.

Where code and comments disagree the code is followed: the design comment of `archive_init.rs` says the bulk load
runs without a write-ahead log, but the archive is opened with it on, and the crash model relies on it. The comment in
`l1block.rs` wants the Bedrock cost for an Ecotone block whose scalars are unset; the code runs the Bedrock formula with
the unset Ecotone scalar, so that cost is always zero (`L1Pricing.EcotoneCost`).

Four properties one might expect are false of the code. Each has a failing input and its exact condition:

- Fees do not always balance: an uncharged envelope is still refunded, and the vaults are paid while charging is off
  (`L1Block.UnchargedEnvelopeMintsValue`). One outcome balances exactly under `L1Block.FeesConservedExactly`, every
  outcome exactly under the test of `L1Block.FeesAlwaysConserved`, which needs nothing from the run.
- A bundle does not always decode from its encoding (`BundleCodec.MisplacedCutDoesNotDecode`): it does exactly when its
  offsets are the running sums of its entry lengths (`BundleCodec.WrittenBundleDecodes`).
- A successful catch-up does not always know the live head's parent (`CatchingUp.HeadLeftWithoutParent`,
  `CatchingUp.HeadBesideSibling`): it does exactly when the object under the parent hash is above the target, or the
  parent was known before, or a by-number read returned it (`CatchingUp.Updater.UpdateFromS3`).
- The repair does not see every contract destroyed and created again in one block (`AccountLives.UnseenDestruction`): it
  does exactly when the address is not upgradable and the code differs or the nonce ends lower (`AccountLives.DestructionIsSeen`).

## Model

| member | source | states |
|---|---|---|
| `FastLz.FlzCompressLen` | crates/op-revm/src/fast_lz.rs:8-57 | the in-place hash-table loop returns exactly the encoded length of the table-free greedy parse; every read is in bounds, no u32 step under- or overflows, and it terminates, for every input up to the u32 bound |
| `FastLz.EstimateIsABlockOfTheInput` | crates/op-revm/src/fast_lz.rs:8-97 | that length is the length of a FastLZ level-1 block which the reference decompressor turns back into the input, for every input |
| `FastLz.FirstTokenIsLiteral` | crates/op-revm/src/fast_lz.rs:9-49 | the block of a non-empty input starts with a literal run; only the empty input has no token |
| `FastLz.MatchShapes` | crates/op-revm/src/fast_lz.rs:28-35 | every match of the parse reaches back at most 8191 bytes |
| `FastLz.MatchTokensShape` | crates/op-revm/src/fast_lz.rs:77-81 | a match is cut into chunks of 262 and a rest of 3 to 264 bytes, and into no more pieces than that |
| `FastLz.EstimateBounds` | crates/op-revm/src/fast_lz.rs:8-57 | the estimate is at most n + ceil(n/32) and at least n/88 |
| `FastLz.ShortInputsAreLiterals` | crates/op-revm/src/fast_lz.rs:9-19 | up to 15 bytes the upper bound is met with equality |
| `FastLz.U32Boundary` | crates/op-revm/src/fast_lz.rs:56-63 | 4164816770 bytes is exactly where the worst-case estimate stops fitting a u32 |
| `FastLz.Cmp` | crates/op-revm/src/fast_lz.rs:65-75 | the comparison loop counts equal bytes and, unless the end stops it, the first different one |
| `FastLz.CmpCovers` | crates/op-revm/src/fast_lz.rs:65-75 | that count is the match length minus two, whichever way the loop ended |
| `FastLz.Exchange` | crates/op-revm/src/fast_lz.rs:24-28 | looking a word up and storing the position returns the latest earlier position with that hash |
| `FastLz.SetNextHash` | crates/op-revm/src/fast_lz.rs:83-86 | remembering one more position keeps the table equal to the latest-position map |
| `FastLz.ScanForMatch` | crates/op-revm/src/fast_lz.rs:23-36 | the inner loop stops exactly at the first hit of the table-free search |
| `FastLz.TakeMatch` | crates/op-revm/src/fast_lz.rs:42-53 | the rest of an iteration adds the cost of the literals and the match and remembers three of its positions |
| `FastLz.LiteralSize` | crates/op-revm/src/fast_lz.rs:59-63 | literal runs cost one extra byte per started 32, as the parse says |
| `FastLz.MatchSize` | crates/op-revm/src/fast_lz.rs:77-81 | matches cost 3 per 262 covered plus 2 or 3, as the parse says |
| `FastLz.HashIsMiddleBits` | crates/op-revm/src/fast_lz.rs:88-91 | the hash is bits 19 to 31 of the word times 2654435769, for every 32-bit word |
| `FastLz.WordIsLittleEndian` | crates/op-revm/src/fast_lz.rs:93-97 | the word at a position is its three bytes, the first the least significant |
| `FastLz.RepeatedBlockCost` | crates/op-revm/src/fast_lz.rs:8-57 | an input that repeats a block of 3 to 8191 bytes with distinct words costs exactly one block of literals, one match for the rest and five literals, as long as no hash of the block clashes with its first |
| `FastLz.RepeatedCost` | crates/op-revm/src/fast_lz.rs:8-57 | four bytes repeated eight times cost 14, where an estimate that missed the repeats would say 33 |
| `FastLz.WordsAreSlices` | crates/op-revm/src/fast_lz.rs:93-97 | comparing 24-bit words is comparing three bytes |
| `FastLzFormat.DecompressEncode` | crates/op-revm/src/fast_lz.rs:59-81 | encoder and decompressor agree on every valid token list that starts with literals |
| `FastLzFormat.ExpansionLimit` | crates/op-revm/src/fast_lz.rs:77-81 | no stream expands more than 88 times |
| `FastLzParse.ParseExpands` | crates/op-revm/src/fast_lz.rs:8-57 | the parse of the rest, run after the bytes before it, gives the whole input |
| `FastLzParse.CostBound` | crates/op-revm/src/fast_lz.rs:42-63 | a match always pays for the literal run in front of it |
| `FastLz.EstimateTxCompressedSize` | crates/op-revm/src/transaction.rs:24-31 | the scaled size is at least 100 bytes and at most the linear model of the worst-case length |
| `FastLz.EstimateIsFjordFormula` | crates/op-revm/src/transaction.rs:24-31 | no u64 step saturates upwards: the result is max(836500 * size - 42585600, 100000000) |
| `RepairSpec.RepairedReadsReplay` | bin/leafage-evm/src/archive_clear_deleted.rs:1-26 | after the planned zeros are written every slot reads, at every height, what the block-by-block replay gives |
| `RepairSpec.RepairIsComplete` | bin/leafage-evm/src/archive_clear_deleted.rs:1-26 | scanning a repaired archive again plans nothing |
| `RepairSpec.ReplayIgnoresPartialApply` | bin/leafage-evm/src/archive_clear_deleted.rs:179-201 | zeros an interrupted apply has already written do not change the replay |
| `RepairSpec.InterruptedRepair` | bin/leafage-evm/src/archive_clear_deleted.rs:179-214 | planning again after any partial apply and applying that plan reads as the replay of the original archive |
| `RepairSpec.Plan` | bin/leafage-evm/src/archive_clear_deleted.rs:420-509 | the plan is exactly the set of slots that were non-zero at a deletion or a recreation that did not write them itself |
| `AccountLives.LivingIsNotRecreated` | bin/leafage-evm/src/archive_clear_deleted.rs:281-290 | a contract whose block destroys nothing is never taken for recreated, whatever happened to it in that block |
| `AccountLives.LivingKeepsStorage` | bin/leafage-evm/src/archive_clear_deleted.rs:1-26 | where a block destroys nothing and does not write a slot, the slot reads after the repair what it read one block earlier |
| `AccountLives.DestructionIsSeen` | bin/leafage-evm/src/archive_clear_deleted.rs:281-290 | over the events of one block, an account destroyed and created again counts as recreated if and only if it is not upgradable and its code differs or its nonce ends lower |
| `AccountLives.UnseenDestruction` | bin/leafage-evm/src/archive_clear_deleted.rs:281-290 | a contract destroyed and created again with the same code and nonce is not seen, and a slot it lost keeps its old value after the repair |
| `RepairScan.VersionRoundTrip` | bin/leafage-evm/src/archive_clear_deleted.rs:317-335 | decoding an encoded version gives it back, ascending and inverted |
| `RepairScan.KeyOrder` | crates/leafage-evm-storage/src/db_impl/archive_encoding.rs:172-184 | the order in which the scan meets storage rows is the order of their encoded keys, in both encodings |
| `RepairScan.AccountKeyOrder` | crates/leafage-evm-storage/src/db_impl/archive_encoding.rs:160-170 | the same for account rows |
| `RepairScan.VersionBytes` | crates/leafage-evm-storage/src/db_impl/archive_encoding.rs:121-146 | in the inverted encoding every byte of the block number is complemented, in the ascending one none |
| `RepairScan.FindVersionIsLatest` | bin/leafage-evm/src/archive_clear_deleted.rs:445-489 | seek or seek-for-prev lands on the latest version at a height under both encodings |
| `RepairScan.PlanSlot` | bin/leafage-evm/src/archive_clear_deleted.rs:457-487 | the deaths tried on one slot give exactly its specified lines |
| `RepairScan.SlotLinesExact` | bin/leafage-evm/src/archive_clear_deleted.rs:457-487 | those lines are the planned zeros of the slot, each once |
| `RepairScan.PlanAccount` | bin/leafage-evm/src/archive_clear_deleted.rs:420-509 | the seek loop plans every slot of the account once and none of another |
| `RepairScan.NextSlot` | bin/leafage-evm/src/archive_clear_deleted.rs:445-455 | the seek past a slot lands on the account's next slot or shows there is none |
| `RepairScan.GatherComplete` | bin/leafage-evm/src/archive_clear_deleted.rs:365-417 | when an account's versions have gone by, its deletions, recreations and last live version are complete in both orders |
| `RepairScan.OlderIsPrevious` | bin/leafage-evm/src/archive_clear_deleted.rs:387-400 | the neighbouring row on the older side is the version before, in both orders |
| `RepairScan.PlanShard` | bin/leafage-evm/src/archive_clear_deleted.rs:359-417 | a shard's walk plans exactly the accounts of the shard |
| `RepairScan.ShardIsFirstByte` | bin/leafage-evm/src/archive_clear_deleted.rs:358-360 | a shard is the first byte of the hashed address |
| `RepairScan.Scan` | bin/leafage-evm/src/archive_clear_deleted.rs:121-177 | the 256 shards together list exactly the plan, each entry once, under either encoding, and flag accounts that live on |
| `RepairScan.ArchiveDb.Apply` | bin/leafage-evm/src/archive_clear_deleted.rs:179-214 | the batched writes leave exactly the planned zeros whatever follows, and reading back stops only at a block without state |
| `RepairScan.ArchiveDb.Repair` | bin/leafage-evm/src/archive_clear_deleted.rs:121-214 | scan followed by apply makes every slot read as the replay at every height; it succeeds if and only if every planned block has state |
| `BatchSort.DedupKeepLastSorted` | bin/leafage-evm/src/archive_init.rs:460-478 | the swap loop leaves, in place, the last entry of every run of equal keys |
| `BatchSort.DedupLastIsLastValue` | bin/leafage-evm/src/archive_init.rs:460-478 | on a sorted batch that is the last value written to every key |
| `BatchSort.SortedBatchIsInsertedMap` | bin/leafage-evm/src/archive_init.rs:647-652 | stable sort then dedup lists, in strictly increasing key order, the map sequential insertion builds |
| `BatchSort.StableSortIsStable` | bin/leafage-evm/src/archive_init.rs:647-652 | a stable sort exists for every batch |
| `ArchiveBlocks.WorkerTables` | bin/leafage-evm/src/archive_init.rs:596-687 | the two tables a worker builds from a batch hold exactly the account and storage versions of its blocks |
| `ArchiveBlocks.SourceCoherent` | bin/leafage-evm/src/archive_init.rs:1594-1630 | blocks whose hashes address their content never disagree on a cell |
| `ArchiveBlocks.EncodedSourceIsAddressed` | bin/leafage-evm/src/archive_init.rs:1594-1630 | what the fetchers encode is such a source whenever block hashes differ and a code hash stands for one code |
| `ArchiveBlocks.TailBytes` | crates/leafage-evm-storage/src/db_impl/archive_encoding.rs:121-146 | a version tail is 24 zero bytes and the eight bytes of the number or of its complement |
| `ArchiveBlocks.AccountKeyBytes` | crates/leafage-evm-storage/src/db_impl/archive_encoding.rs:160-170 | an account key is the 32 bytes of the address and the tail |
| `ArchiveBlocks.SlotKeyBytes` | crates/leafage-evm-storage/src/db_impl/archive_encoding.rs:172-184 | a storage key is the 32 bytes of the address, the 32 of the slot and the tail |
| `ArchiveBlocks.EncodedAccount` | bin/leafage-evm/src/archive_init.rs:1594-1630 | an encoded block says of an account its last new value, else its deletion, else nothing: deletions never hide a new account |
| `ArchiveBlocks.EncodedSlot` | bin/leafage-evm/src/archive_init.rs:1612-1620 | an encoded block says of a slot the last value its diff gives |
| `ArchiveBlocks.PartIsWritten` | bin/leafage-evm/src/archive_init.rs:530-541 | the cells of a block are, cell kind by cell kind, what its own fields say: hash, info, codes, and the last version written of each account and slot |
| `ArchiveBlocks.MergeHoldsExactly` | bin/leafage-evm/src/archive_init.rs:1207-1246 | the cells of several blocks hold, for every cell there is, what the last block that mentions it says, and nothing else |
| `ArchiveBlocks.PartHoldsBlock` | bin/leafage-evm/src/archive_init.rs:530-541 | cells that include a block's hold its hash under its number, its info under its hash, every code under its hash and every last account and storage version |
| `ArchiveBlocks.LoadedAccount` | bin/leafage-evm/src/archive_init.rs:1594-1630 | a stored block has exactly the account versions of its diff |
| `ArchiveBlocks.LoadedSlot` | bin/leafage-evm/src/archive_init.rs:1594-1630 | a stored block has exactly the storage versions of its diff |
| `Accumulating.Accumulator.constructor` | bin/leafage-evm/src/archive_init.rs:491-508 | a fresh accumulator has absorbed nothing and waits for the start block |
| `Accumulating.Accumulator.Absorb` | bin/leafage-evm/src/archive_init.rs:523-572 | absorbing the next block sends the batch exactly at a positive multiple of the checkpoint interval |
| `Accumulating.Accumulator.Drain` | bin/leafage-evm/src/archive_init.rs:522-572 | waiting blocks are absorbed as long as the next one is there |
| `Accumulating.Accumulator.Receive` | bin/leafage-evm/src/archive_init.rs:510-573 | after any arrival, early, late or repeated, what is absorbed is what the arrivals alone determine |
| `Accumulating.Accumulator.Finish` | bin/leafage-evm/src/archive_init.rs:575-590 | batches are numbered 0, 1, 2, ..., concatenate to the absorbed blocks, each once; all but the last end at their only checkpoint and the last has none before its end; the return value is the highest contiguous block |
| `Accumulating.AbsorbedIsUnique` | bin/leafage-evm/src/archive_init.rs:484-590 | the arrivals determine the absorbed blocks |
| `Accumulating.CheckpointCrossed` | bin/leafage-evm/src/archive_init.rs:547-548 | the division test fires exactly at a positive multiple of the interval |
| `Checkpointing.CheckpointWorker.constructor` | bin/leafage-evm/src/archive_init.rs:1164-1182 | a fresh worker starts from the stored archive and its latest hash |
| `Checkpointing.CheckpointWorker.Write` | bin/leafage-evm/src/archive_init.rs:1207-1246 | after every block the archive holds exactly the committed prefix and the latest pointer names its last block; it commits exactly at the checkpoints |
| `Checkpointing.CheckpointWorker.Commit` | bin/leafage-evm/src/archive_init.rs:1222-1243 | batch and latest pointer become durable together |
| `Checkpointing.CheckpointWorker.Receive` | bin/leafage-evm/src/archive_init.rs:1184-1247 | any arrival order keeps the committed-prefix invariant |
| `Checkpointing.CheckpointWorker.Finish` | bin/leafage-evm/src/archive_init.rs:1269-1288 | every cell of the archive ends as the last absorbed block that mentions it says, or as it was; last hash, count and contiguous height are those of the absorbed blocks |
| `Ingesting.StepKeeps` | bin/leafage-evm/src/archive_init.rs:347-388 | every step of accumulator, workers, advancer and crash keeps the protocol invariant |
| `Ingesting.EmitKeeps` | bin/leafage-evm/src/archive_init.rs:484-590 | emitting a batch keeps it |
| `Ingesting.IngestKeeps` | bin/leafage-evm/src/archive_init.rs:596-687 | ingesting one of a batch's tables, in any order with other workers, keeps it |
| `Ingesting.ReceiveKeeps` | bin/leafage-evm/src/archive_init.rs:766-776 | a completion received out of order keeps it |
| `Ingesting.CommitKeeps` | bin/leafage-evm/src/archive_init.rs:778-798 | committing the next batch, and syncing on the last of a drain, keeps it |
| `Ingesting.CrashKeeps` | bin/leafage-evm/src/archive_init.rs:1324-1348 | losing any unsynced suffix of the log and restarting keeps it |
| `Ingesting.CrashAnywhere` | bin/leafage-evm/src/archive_init.rs:1324-1348 | any history can be continued by a crash that leaves any log prefix from the last sync on, and by a process that starts afresh at the watermark |
| `Ingesting.CrashSafety` | bin/leafage-evm/src/archive_init.rs:370-380 | at every moment of every history, after a crash leaving any log prefix from the last sync on, the latest pointer names a block up to which every block's hash, info, codes and last versions are readable, nothing is stored that the source does not say, and a restart resumes right after it |
| `Ingesting.ResumesAtMark` | bin/leafage-evm/src/archive_init.rs:1324-1348 | a restart never meets a dangling latest hash and resumes right after the watermark |
| `Ingesting.FinishedLoad` | bin/leafage-evm/src/archive_init.rs:347-388 | after any number of crashes a finished load holds, cell by cell, what the last block of the source that mentions it says and nothing else, with all of every block, its last hash and its height |
| `Ingesting.StepProgresses` | bin/leafage-evm/src/archive_init.rs:596-879 | every step but a crash lowers a rank |
| `Ingesting.NotStuck` | bin/leafage-evm/src/archive_init.rs:596-879 | a load that is not finished can always take a step |
| `Ingesting.LoadCanFinish` | bin/leafage-evm/src/archive_init.rs:596-879 | from any moment of any history the load can be completed without a further crash |
| `Ingesting.CommitAllDrains` | bin/leafage-evm/src/archive_init.rs:778-798 | the protocol's commit steps of one drain add one drain's log entries |
| `Advancing.Advancer.constructor` | bin/leafage-evm/src/archive_init.rs:754-758 | a fresh advancer has written nothing and reports the block before the start |
| `Advancing.Advancer.DrainPending` | bin/leafage-evm/src/archive_init.rs:766-773 | the completions taken are the gap-free run from the next sequence number, and only those leave |
| `Advancing.Advancer.CommitDrained` | bin/leafage-evm/src/archive_init.rs:778-798 | one log entry per batch in order, the latest hash and the sync only with the last |
| `Advancing.Advancer.Receive` | bin/leafage-evm/src/archive_init.rs:766-798 | one completion, in any order, commits everything now in sequence and nothing else |
| `Advancing.EntriesAreDrained` | bin/leafage-evm/src/archive_init.rs:778-798 | the entries the advancer writes are those of the protocol |
| `Advancing.ReceiveSimulates` | bin/leafage-evm/src/archive_init.rs:766-798 | an advancer that mirrors the protocol goes, by one receive, to one that mirrors the protocol after its receive step and every commit it owes: log, sync, held-back completions, count and contiguous height |
| `Loading.AccumulatedAreConsecutive` | bin/leafage-evm/src/archive_init.rs:484-590 | the accumulator's batches are the consecutive batches the protocol emits |
| `Loading.AnyBatchesCanBeEmitted` | bin/leafage-evm/src/archive_init.rs:484-590 | however an accumulator cuts its batches, a process that has just started can emit them |
| `Loading.FetchedOnceIsAbsorbed` | bin/leafage-evm/src/archive_init.rs:1353-1480 | what the fetcher delivers in any order is absorbed completely |
| `Loading.IngestWorker` | bin/leafage-evm/src/archive_init.rs:596-687 | the tables a worker sorts, deduplicates and ingests, and the completion it reports, are those of the protocol's steps, with and without schema v3 |
| `Loading.Load` | bin/leafage-evm/src/archive_init.rs:1011-1074 | accumulator, workers and advancer together, for any arrivals and any order of worker completion, end with every cell as the last block of the source that mentions it says and no other cell, and with its last hash and height |
| `Loading.LoadFetched` | bin/leafage-evm/src/archive_init.rs:1041-1074 | what the fetcher delivers in any order is loaded completely: all of every block and nothing else |
| `Loading.BackendsAgree` | bin/leafage-evm/src/archive_init.rs:1156-1321 | for the same arrivals, any finished history of the pipeline, crashes included, and the single-threaded writer have the same archive, latest hash and contiguous height |
| `Loading.LoadBoth` | bin/leafage-evm/src/archive_init.rs:1011-1095 | one arrival sequence run through both writers gives the same archive, latest hash and height |
| `ArchiveReading.SeekFindsLatest` | crates/leafage-evm-storage/src/db_impl/rocksdb_impl/archive/mod.rs:2595-2630 | over the raw keys, a seek in the inverted encoding and a seek-for-prev in the ascending one land under the wanted prefix exactly when it has a version at or below the height, and then on the latest one |
| `ArchiveReading.AccountReadIsReplay` | crates/leafage-evm-storage/src/db_impl/rocksdb_impl/archive/mod.rs:2595-2636 | reading an account at a stored height gives what replaying the state diffs to that height gives |
| `ArchiveReading.SlotReadIsReplay` | crates/leafage-evm-storage/src/db_impl/rocksdb_impl/archive/mod.rs:3001-3026 | the same for a slot, zero where no diff mentions it |
| `ArchiveReading.LoadReadsReplay` | bin/leafage-evm/src/archive_init.rs:347-388 | at every moment of every history of a load, and after a crash at that moment, every account and slot reads, at every height below the watermark, as the replay of the state diffs |
| `L1Block.TryFetch` | crates/op-revm/src/l1block.rs:82-169 | the info carries its block number, and from Isthmus on operator fields of at most 4 and 8 bytes |
| `L1Pricing.FetchedBeforeEcotone` | crates/op-revm/src/l1block.rs:134-155 | before Ecotone base fee, overhead and scalar are slots 1, 5 and 6 and nothing else is set |
| `L1Pricing.FetchedFromEcotone` | crates/op-revm/src/l1block.rs:62-131 | from Ecotone on every field is the named bytes of the named slot, byte by byte, and is set exactly in its hardforks |
| `L1Block.EmptyScalars` | crates/op-revm/src/l1block.rs:104-131 | the Ecotone scalars count as unset exactly when both are zero |
| `L1Block.ForksInOrder` | crates/op-revm/src/spec.rs:10-34 | a hardfork is enabled exactly in itself and those after it |
| `L1Block.OperatorFeeIsExact` | crates/op-revm/src/l1block.rs:174-204 | the operator fee never saturates and is bounded by its 4- and 8-byte fields |
| `L1Block.OperatorFeeMonotone` | crates/op-revm/src/l1block.rs:190-228 | the operator fee is monotone in gas, so the refund never saturates |
| `L1Pricing.OperatorCharge` | crates/op-revm/src/l1block.rs:174-204 | the operator fee of a chargeable envelope is gas times bytes 20 to 24 of slot 8, over a million or from Jovian on times a hundred, plus bytes 24 to 32; it is zero before Isthmus |
| `L1Pricing.OperatorRefund` | crates/op-revm/src/l1block.rs:209-228 | the refund is that price of the limit less that of the gas used, also where remaining, reservoir and refund exceed the limit |
| `L1Block.L1CostBound` | crates/op-revm/src/l1block.rs:297-379 | every L1 cost is at most (2^256-1)/10^6 in every hardfork |
| `L1Pricing.CalldataGas` | crates/op-revm/src/l1block.rs:237-256 | before Fjord a byte costs 16 gas and a zero byte 4, with 68 extra bytes in Bedrock |
| `L1Pricing.CompressedGas` | crates/op-revm/src/l1block.rs:237-243 | from Fjord on the data gas is 16 per byte of the estimated size |
| `L1Pricing.FeeScaledIsCapped` | crates/op-revm/src/l1block.rs:368-379 | the price of a byte, with its five saturating steps, is 16 base fees times base scalar plus blob fee times blob scalar, capped once |
| `L1Pricing.FreeCost` | crates/op-revm/src/l1block.rs:297-304 | an empty or 0x7E envelope has no L1 cost |
| `L1Pricing.BedrockCost` | crates/op-revm/src/l1block.rs:317-324 | read off the storage: calldata gas and overhead, times base fee and scalar, capped once at 2^256 - 1, over a million |
| `L1Pricing.EcotoneCost` | crates/op-revm/src/l1block.rs:336-351 | read off the storage: calldata gas times the price of a byte, capped once, over sixteen million; with unset scalars the Bedrock fallback costs nothing, which is the same |
| `L1Pricing.FjordCost` | crates/op-revm/src/l1block.rs:356-366 | read off the storage: estimated size times the price of a byte, capped once, over a million million, for every storage and envelope |
| `L1Pricing.FreeScalars` | crates/op-revm/src/l1block.rs:368-379 | without a base fee the base fee scalar does not matter, without a blob fee the blob scalar |
| `L1Block.ChargeIsExact` | crates/op-revm/src/l1block.rs:282-293 | the charge is the exact sum of L1 cost and operator fee |
| `L1Block.SameGas` | crates/op-revm/src/l1block.rs:209-228 | refund and payment price the same gas |
| `L1Block.FlowAmounts` | crates/op-revm/src/handler.rs:177-189 | charge, refund and both payments without saturation, for every hardfork, envelope and gas |
| `L1Block.FeesConservedExactly` | crates/op-revm/src/handler.rs:177-189 | charge equals refund plus both vault payments if and only if the envelope is chargeable, or Isthmus is off, or the unused gas is worth nothing; with charging off, if and only if nothing is due |
| `L1Block.FeesAlwaysConserved` | crates/op-revm/src/handler.rs:177-189 | whatever gas a transaction ends up using its fees balance if and only if a test on envelope, hardfork and operator fee, made before it runs, holds |
| `L1Block.UnchargedEnvelopeMintsValue` | crates/op-revm/src/l1block.rs:182-228 | with info fetched from a contract that sets only an operator fee, a 0x7E envelope of a non-deposit transaction is charged nothing and refunded 21000 |
| `OpHandling.FetchedFeesConserved` | crates/op-revm/src/handler.rs:307-398 | with info loaded by the fetch and a chargeable envelope the fees balance |
| `OpHandling.SettledBalance` | crates/op-revm/src/handler.rs:380-398 | a settled transaction leaves to anyone exactly what execution leaves, less the charge taken before it, plus refunds for the caller, the tip, and each fee at the predeploy address 0x42..19, 0x42..1A or 0x42..1B |
| `OpHandling.DepositedBalances` | crates/op-revm/src/handler.rs:440-547 | a deposit leaves, failure by failure, nothing, its mint alone, or its mint and what it did |
| `OpHandling.SettlementKeepsSupply` | crates/op-revm/src/handler.rs:380-398 | around any execution that moves balances without creating any, a settlement changes the total of all balances only by the mainnet amounts if and only if its fee flow balances |
| `OpHandling.TransactionSupply` | crates/op-revm/src/handler.rs:122-459 | one transaction, settled, failed or deposit, changes the supply by its mint if and only if the fees it moved balance |
| `OpHandling.RunKeepsSupply` | crates/op-revm/src/handler.rs:122-459 | with charging on and chargeable envelopes a whole run of transactions changes the supply by exactly the mints of the deposits it kept |
| `OpHandling.L1BlockInfo.CalculateTxL1Cost` | crates/op-revm/src/l1block.rs:297-314 | the cached cost wins; otherwise the cost of this envelope is computed and cached, unless it is free |
| `OpHandling.L1BlockInfo.TxCost` | crates/op-revm/src/l1block.rs:282-293 | the result is the cached or computed L1 cost plus the operator fee of the whole limit |
| `OpHandling.L1BlockInfo.ClearTxL1Cost` | crates/op-revm/src/l1block.rs:266-268 | the cache is empty |
| `OpHandling.Evm.LoadInfo` | crates/op-revm/src/handler.rs:163-167 | the info becomes that of the current block, with no cached cost, unless it has to be read and cannot |
| `OpHandling.Evm.ChargeOf` | crates/op-revm/src/handler.rs:177-189 | the charge is priced with this block's info and this envelope |
| `OpHandling.Evm.DeductCaller` | crates/op-revm/src/handler.rs:122-200 | the caller loses exactly charge and upfront fee, or an error leaves all balances alone and has a named cause; a cached cost is this transaction's own |
| `OpHandling.Evm.ReimburseCaller` | crates/op-revm/src/handler.rs:307-322 | the caller gets the mainnet amount and the operator refund |
| `OpHandling.Evm.RewardBeneficiary` | crates/op-revm/src/handler.rs:354-401 | the vaults get the L1 cost of this envelope and the operator fee of the gas used; it fails exactly without an envelope or when paying fails |
| `OpHandling.Evm.CatchError` | crates/op-revm/src/handler.rs:440-459 | every error ends with an empty cache; a failed deposit keeps its mint and anything else is undone |
| `OpHandling.Evm.TransactDeposit` | crates/op-revm/src/handler.rs:509-547 | a deposit leaves no cached cost and exactly the balances of its mint and execution, or of its mint alone if it halts from Regolith on, or none of it after an outside error |
| `OpHandling.Evm.Settle` | crates/op-revm/src/handler.rs:122-401 | a settled transaction charged, ran, refunded and paid exactly the fees of its envelope under its block's info; otherwise it failed elsewhere or could not pay |
| `OpHandling.Evm.Transact` | crates/op-revm/src/handler.rs:122-459 | on success, deposit and every error path the cache is empty afterwards and the balances are accounted for: settled, a deposit's outcome, or unchanged for a named cause |
| `OpHandling.Evm.TransactAll` | crates/op-revm/src/handler.rs:122-459 | over any sequence of transactions and blocks every step from one ledger to the next is accounted for by its own transaction, bytes and block |
| `BundleIndex.Validate` | crates/leafage-evm-types/src/bundle.rs:176-214 | the loops accept exactly the indexes whose used offsets rise from 0 and whose unused part is zero, and report the first fault |
| `BundleIndex.EncodeForBundle` | crates/leafage-evm-types/src/bundle.rs:101-115 | accepted indexes, and no others, encode, to bytes that parse back to the index |
| `BundleIndex.DecodeForBundle` | crates/leafage-evm-types/src/bundle.rs:123-154 | decoding accepts exactly accepted indexes of 8133 bytes and its result encodes back to the same bytes; errors name the first fault |
| `BundleIndex.LayoutRoundTrip` | crates/leafage-evm-types/src/bundle.rs:101-154 | parse and layout are mutual inverses |
| `BundleIndex.PayloadSize` | crates/leafage-evm-types/src/bundle.rs:85-92 | the last non-zero offset is the end of the last entry |
| `BundleIndex.RangesAreEntries` | crates/leafage-evm-types/src/bundle.rs:157-174 | an entry has a range exactly when the bundle holds it, and otherwise the error names the position |
| `BundleIndex.BitsSpellByte` | crates/leafage-evm-types/src/bundle.rs:80-83 | positions 8i to 8i + 7 of the bitmap are the bits of byte i, the least significant first |
| `BundleIndex.RangesTileThePayload` | crates/leafage-evm-types/src/bundle.rs:157-174 | every payload byte lies in exactly one entry range and no range reaches beyond |
| `BundleCodec.Encode` | crates/leafage-evm-types/src/bundle.rs:18-26 | accepted bundles, and no others, encode, to the index followed by the entries; an error names the first fault |
| `BundleCodec.Decode` | crates/leafage-evm-types/src/bundle.rs:28-68 | success gives the bundle the bytes hold; an error means the bytes hold none, and tells a short object, the first fault of the index, a wrong length, or the first unreadable entry |
| `BundleCodec.RunningSumsRoundTrip` | crates/leafage-evm-types/src/bundle.rs:18-68 | a bundle whose offsets are the running sums decodes to itself |
| `BundleCodec.WrittenBundleDecodes` | crates/leafage-evm-types/src/bundle.rs:18-68 | a written bundle decodes if and only if its offsets are the running sums of its entry lengths, and then only to itself |
| `BundleCodec.MisplacedCutDoesNotDecode` | crates/leafage-evm-types/src/bundle.rs:18-68 | an accepted index that cuts inside the first entry encodes to the length it announces, and no bundle decodes from the result |
| `BundleCodec.DecodedBundleEncodes` | crates/leafage-evm-types/src/bundle.rs:18-68 | a decoded bundle encodes back to the same bytes |
| `BundleNumbering.BundleIsARun` | bin/leafage-evm/src/bundle/mod.rs:38-45 | a bundle is a run of consecutive numbers whose last is the computed end, also where the product saturates; number, bundle and position determine each other |
| `BundleNumbering.BundleIsFull` | bin/leafage-evm/src/bundle/mod.rs:38-45 | every place of a bundle is some block's |
| `BundleReading.DecodeBundleHeaders` | bin/leafage-evm/src/bundle/mod.rs:406-453 | headers are accepted exactly when they are the bundle's count of consecutive numbers linked by parent hash |
| `BundleReading.StateDiffRangeEnd` | bin/leafage-evm/src/bundle/mod.rs:455-473 | the group is the longest within the limit, or a single entry |
| `BundleReading.FetchGroup` | bin/leafage-evm/src/bundle/mod.rs:129-172 | one request asks for exactly the bytes of one greedy group |
| `BundleReading.ProcessGroup` | bin/leafage-evm/src/bundle/mod.rs:173-213 | entries are handed over in order, each decoded from its own bytes and matching its header; a stop names the faulty entry or the refused call |
| `BundleReading.ReadGroups` | bin/leafage-evm/src/bundle/mod.rs:124-218 | the requests tile the range, each within the limit or single and maximal; every call carries the block at its place |
| `BundleReading.OpenIndex` | bin/leafage-evm/src/bundle/mod.rs:77-103 | the index is accepted exactly when it accounts for the object; it is a miss if and only if the object is missing |
| `BundleReading.CheckSources` | bin/leafage-evm/src/bundle/mod.rs:105-113 | passes exactly when every requested entry has a source diff |
| `BundleReading.ReadBundle` | bin/leafage-evm/src/bundle/mod.rs:53-219 | the receiver sees an ascending run from the start linked by hash and root, all of it on success; every answered payload request is accounted for; in block-hash mode one synthesized entry means no payload request and no call; an empty or crossing range is refused, a miss is reported if and only if the object is missing, and with a sound object, headers and receiver it succeeds |
| `BundleReading.RunIsLinked` | bin/leafage-evm/src/bundle/mod.rs:173-213 | the calls of a run are consecutive, linked blocks |
| `BundleReading.WrittenBundleIsReady` | bin/leafage-evm/src/bundle/mod.rs:53-219 | every part of a written bundle with matching headers can be read |
| `BundleReading.WrittenBundleReadsBack` | bin/leafage-evm/src/bundle/mod.rs:53-219 | what the receiver gets from a written bundle is that bundle's entries |
| `RequestPlans.PlanAsksEachOnce` | bin/leafage-evm/src/updater/kafka_updater.rs:395-480 | whatever the mix of bundle hits, first miss, hand-off block and batches, the numbers asked for are start..=end, once and ascending |
| `RequestPlans.BundleWindowAt` | bin/leafage-evm/src/updater/kafka_updater.rs:403-414 | a window lies in one bundle and stops only at its end or the range's |
| `CatchingUp.Target` | bin/leafage-evm/src/updater/kafka_updater.rs:514-517 | the hand-off height is at most the safe depth below the tip, never below what is applied unless that is past the tip, and exactly the safe depth below it whenever there is something to read |
| `CatchingUp.Tip` | bin/leafage-evm/src/updater/kafka_updater.rs:495-496 | the tip is the block before the live head, or 0 |
| `CatchingUp.Tree.UpdateBlock` | bin/leafage-evm/src/updater/kafka_updater.rs:459-459 | a block is added if and only if its parent is known and it is not refused |
| `CatchingUp.Tree.UpdateAll` | bin/leafage-evm/src/updater/kafka_updater.rs:588-591 | the tree then knows what it knew and the added blocks; a linked run below a known parent can only fail by refusal |
| `CatchingUp.Updater.ReadWindows` | bin/leafage-evm/src/updater/kafka_updater.rs:403-439 | windows tile the range up to the first miss, their blocks are added in place, and the last state root is kept |
| `CatchingUp.Updater.UpdateRange` | bin/leafage-evm/src/updater/kafka_updater.rs:342-390 | a batch is added in ascending order |
| `CatchingUp.Updater.UpdateBatches` | bin/leafage-evm/src/updater/kafka_updater.rs:466-478 | batches of the queue size tile the rest |
| `CatchingUp.Updater.UpdateSingles` | bin/leafage-evm/src/updater/kafka_updater.rs:441-478 | the first by-number block is read with the retained root, the rest in batches, and all are added in order |
| `CatchingUp.Updater.UpdateStableRange` | bin/leafage-evm/src/updater/kafka_updater.rs:395-480 | the requests form such a plan, bundles stop only at a missing one, the first by-number read uses the root of the block before it, a miss turns bundles off for good, and a stop has a named cause in the range |
| `CatchingUp.Updater.Backfill` | bin/leafage-evm/src/updater/kafka_updater.rs:536-562 | the loop is the bounded walk along parent hashes and reads at most tip minus target objects |
| `CatchingUp.Updater.ApplyBackfill` | bin/leafage-evm/src/updater/kafka_updater.rs:564-591 | a mismatch is reported exactly when the oldest block does not hang below the tree's block at the target; otherwise the blocks are added oldest first |
| `CatchingUp.Updater.CatchUpByHash` | bin/leafage-evm/src/updater/kafka_updater.rs:533-592 | a non-empty backfill is a hash-linked path from the tree's block at the target to the head's parent; only a failed read, a mismatch or a refusal can stop it |
| `CatchingUp.Updater.UpdateFromS3` | bin/leafage-evm/src/updater/kafka_updater.rs:482-593 | both phases together: what is asked for, what is added in which order, why it can stop, and that the head's parent is known afterwards if and only if its object is above the target, or it was known before, or a by-number read returned it |
| `CatchingUp.WalkIsAPath` | bin/leafage-evm/src/updater/kafka_updater.rs:544-562 | a walk, oldest first, is a linked path that ends at the hash it started from, above the target, within the hop bound |
| `CatchingUp.WalkTakesTheBuffer` | bin/leafage-evm/src/updater/kafka_updater.rs:538-562 | where numbers fall by one per block the walk takes exactly tip minus target blocks and ends at the head's ancestor at the target |
| `CatchingUp.HeadLeftWithoutParent` | bin/leafage-evm/src/updater/kafka_updater.rs:554-556 | a catch-up can succeed without the head's parent: the object under the parent hash has a number at or below the target |
| `CatchingUp.HeadBesideSibling` | bin/leafage-evm/src/updater/kafka_updater.rs:514-537 | without a buffer a catch-up can succeed beside the head's parent: the by-number read at the tip gave a sibling |
| `ArchiveFetching.FetchWindows` | bin/leafage-evm/src/archive_init.rs:1372-1410 | bundle windows tile the range up to the first miss, which is a miss indeed, and are sent in order |
| `ArchiveFetching.FetchUnordered` | bin/leafage-evm/src/archive_init.rs:1443-1477 | each number is asked for once, in order, and sent once with its answer, in whatever order answers come back; it stops only at a failed read or a closed channel |
| `ArchiveFetching.FetchHandOff` | bin/leafage-evm/src/archive_init.rs:1412-1441 | the block after the bundles is read with the retained root and sent |
| `ArchiveFetching.FetchBlocks` | bin/leafage-evm/src/archive_init.rs:1353-1480 | every number of start..=end is asked for once and sent once with its own answer; bundles are read only if asked for and up to a missing one, the block after them with the retained root; it stops only at a failed read in the range, a closed channel, or a start above 0 without a root |
| `Rlp.RlpDecode` | scripts/compare_debank_block.py:70-92 | the recursive loop computes the decoding function and terminates on every input |
| `Rlp.DecodeInvertsEncode` | scripts/compare_debank_block.py:70-92 | decoding at an item's offset gives the item and the offset just past it, whatever surrounds it, for every nested item with an encoding |
| `Rlp.DecodeItemsInvertsEncodeAll` | scripts/compare_debank_block.py:88-92 | the list loop gives back the list |
| `Rlp.EncodingsArePrefixFree` | scripts/compare_debank_block.py:70-92 | no encoding is the start of another |
| `CodeCache.CodeReader.Get` | crates/leafage-evm-storage/src/db.rs:317-320 | a hit is what the cache holds at that moment and the meaning of its hash, whatever was evicted or inserted meanwhile |
| `CodeCache.CodeReader.AnalyzeAndCache` | crates/leafage-evm-storage/src/db.rs:109-115 | the analyzed code is offered to the cache and returned even when the cache drops it, and the cache stays consistent |
| `CodeCache.CodeReader.CodeByHash` | crates/leafage-evm-storage/src/db.rs:317-327 | a scalar read gives the meaning of the hash: the analyzed code, or the default when it is not stored; it reads the database exactly when the cache has no hit and fails exactly when that read does |
| `CodeCache.CodeReader.FillIn` | crates/leafage-evm-storage/src/db.rs:359-369 | the answers line up with the empty slots, with repetitions and missing codes |
| `CodeCache.CodeReader.CodeByHashMany` | crates/leafage-evm-storage/src/db.rs:347-371 | the batch gives, at every position, what the scalar read gives, with at most one database read; it fails exactly when that read does, and the cache never remembers a missing code |
| `CodeCache.MissingStep` | crates/leafage-evm-storage/src/db.rs:353-365 | slot i takes the answer counted by the misses before it |

## Left out

- RocksDB, MDBX, S3, Kafka, etcd, HTTP, gzip and JSON: they appear as ordered maps, a log with a synced prefix, and functions from keys to objects; retries, delays, metrics, logging and command lines do not appear.
- revm internals: the journal, frames, precompiles and the mainnet handler enter as amounts and as places where a transaction may fail.
- Nonces, the account checks and the halted deposit's gas and nonce bookkeeping: only balances and the cost cache are modelled.
- Overflow of an account balance and the switch that disables balance checks: balances are unbounded numbers, while all fee arithmetic is 256-bit.
- The DA footprint of Jovian blocks: the field is fetched but its block-level limit is not modelled.
- RLP account bodies and the hashing of addresses: an account version is its stored bytes, an address its hash.
- Archive reads under schema v3 and the read caches: the read model is the seek over encoded keys.
- The repair plan's text file and the parallel scan order: the scan runs its shards in turn.
- Archive schema v3 in the repair scan: the scan knows only the two key-tail encodings.
- A bound on the number of ingest workers in flight: the model runs any number, as the dispatcher's receive arm has no guard.
- The accumulator's abort when a downstream channel closes: it ends the run like a crash.
- Loading.Load: runs the accumulator to its end before the first worker starts; every other interleaving, and crashes, are covered by the protocol lemmas of Ingesting.
- BundleReading.ReadBundle: requests are answered by an arbitrary function of request number and range, so retries inside one request are not visible; header bytes enter already decompressed and parsed.
- BundleCodec.Decode: entries are read by an arbitrary self-delimiting decoder; the RLP of a state diff is not spelled out.
- CatchingUp.Updater.UpdateFromS3: the two catch-up phases see bundle reads as whole windows of blocks, which is what the bundle reader's contract gives; a block number of 2^64 - 1 as the last applied block is not modelled.
- CodeCache.CodeReader.CodeByHashMany: the cache is shared by all stores of a process, and the model reads through one store with which the cache is consistent.
- Rlp.RlpDecode: Python's recursion limit is not modelled; items longer than 2^64 - 1 bytes have no encoding.
- The offset commit after a live update, the in-memory state tree, diff layers, rewind, compaction, migration, warm-up, chain configuration and the benchmark tool.
