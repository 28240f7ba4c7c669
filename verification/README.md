# Verified models of fuel-core

Dafny models of four parts of fuel-core, with proofs of what they promise over whole runs.

**Block compression for data availability.** Compression replaces addresses, asset ids, contract
ids, script code and predicate code by short registry keys, handed out round-robin from a
registry that evicts. A first pass keeps the keys a block reuses, a second pass replaces values
and allocates keys around the kept ones; the new entries travel with the block and are replayed
by the decompressor. The result is a round trip over every chain of blocks.
`Blocks`, `RegistryKeys`, `TemporalRegistry`, `EvictionPolicy`, `Compression` and `Decompression`
hold the data and what the operations mean; `Compressor` holds the compressor as objects updated
in place; `EvictionSafety`, `CompressionCapacity`, `CompressionCursor`, `ChainRoundTrip`,
`DefaultValues`, `RegistryIndex` and `RegistryIndexLoss` hold the proofs.

**Coin selection.** Largest first, random improvement, and big coins plus dust from an index:
`Coins`, `CoinsQuery`, `CoinsToSpend`. The results hold for every shuffle and every random draw.

**Gas price updaters.** Versions 0 and 1, with the integer widths, saturation and truncating
division of the original: `GasPriceExec`, `GasPriceV0`, `GasPriceV1`, `GasPriceV1Updater` (the
updater as an object), `GasPriceV1Bytes`, `GasPriceV1Runs`, `GasPriceV1Prices`, `GasPriceV1Exact`.

**Height-linked databases.** A store that keeps reverse changes per height, the database with a
cached height on top of it, and the rollback of several databases to one height:
`HistoricalStore`, `ChangeLists`, `HistoryProofs`, `DatabaseModel`, `DatabaseRuns`, `Databases`
(the objects), `CombinedDatabases`.

Objects that the source updates in place are classes whose methods are proved equal to functions
on values; the statements about runs are proved of those functions. `Wrappers` and `MachineInts`
are shared. `dafny verify dfyconfig.toml` checks everything.

## Where the code does less than one might expect

- Overwriting a registry key removes the index entry of the value it held, even if that entry
  belongs to another key holding the same value. Round trips are unaffected (`ProperRoundTrips`
  for the chains below), but a stored value can no longer be found and is registered
  again. `WriteKeepsCompleteIff` says exactly when for one write, `ChainKeepsCompleteIff` for
  whole chains, and `IndexLosesValue` is one that leads there.
- The index also depends on the order in which a block's changes are written, when one of them
  overwrites a value that another registers anew: `IndexOrderIrrelevantIff`, `OrderMatters`.
- A block whose evictor allocates nothing still advances the cursor by one key, so a key can come
  round again before that one was handed out; `ChainRoundRobin` has it as its third case.
- Rolling back the first committed height leaves no stored height but a cached one, unless that
  height is zero, until the database is opened again; `RollbackConsistentIff` says exactly when
  they agree, `FirstBlockRollback` is an instance.
- A DA update without recorded bytes fails after it has booked its cost, and the projected cost
  is not recomputed; `FailingDaKeepsSyncIff` says when it stays right all the same, and
  `RunKeepsSyncIff` over whole runs; `FailingDaDrifts` is an instance where it does not.
- When activity forces the DA price down, a loss lowers it by the largest change while a profit
  lowers it only as far as the controller asks, so more profit can mean a higher price:
  `DaPriceRisesWithProfitIff` says exactly when, `ForcedDecreaseInverts` is an instance.
- At the largest L2 height the same height is accepted again and the byte counter drifts from
  the map; `TopHeightDrifts` is an instance, `RunKeepsBytesIff` the exact condition over runs.
- A rewind window larger than the chain forgets height zero at the second commit, because the
  subtraction saturates: `RangeRetainsIff`, `RangeRollbackIff`, and `HeightZeroForgotten` as an
  instance. The retained heights still have no gap.
- A commit without a height may write one into the metadata itself; it is then stored and not
  cached. `CommitKeepsIff` and `RunConsistentIff` have it as an exception, `HeightWithoutCommit`
  is an instance.
- A store with history collects a list of change sets column by column, so a later set replaces
  an earlier one's whole column; a store without history writes both. `CollectsAllIff` says when
  nothing is lost, `SharedColumn` is an instance. The importer's two sets are such a list.
- The store's own read as of the largest height of all misses what the block at that height
  changed, because "the height after" saturates: `ReadAtIsExactIff`, `MaxHeightReadMisses`. The
  database reads its current height another way, so no read through it is affected (`LiveReads`).
- `rollback_to` reports success without having arrived if a shutdown request ends its loop and
  is withdrawn before it asks again; `RollbackTo` says exactly when, `WithdrawnShutdown` is an
  instance. The node's own listener is a cancellation token (crates/fuel-core/src/lib.rs:112-115)
  and never withdraws a request.

## Model

| member | source | states |
|---|---|---|
| EvictionPolicy.FreeFrom | crates/compression/src/eviction_policy.rs:48-50 | the search for a key ends for every keep set smaller than the key space, at a key not kept, having passed over kept keys only |
| EvictionPolicy.FreeFromLap | crates/compression/src/eviction_policy.rs:48-50 | the search depends on the key under the cursor, not on how often the cursor has wrapped |
| EvictionPolicy.CacheEvictor.NewFromDb | crates/compression/src/eviction_policy.rs:21-40 | a block's evictor starts right after the committed key, or at key zero |
| EvictionPolicy.CacheEvictor.NextKey | crates/compression/src/eviction_policy.rs:42-54 | terminates; the key handed out was not kept, is writable (never the reserved default key), and is kept and under the cursor afterwards |
| EvictionPolicy.AllocateAdvances | crates/compression/src/eviction_policy.rs:42-54 | within a block positions strictly increase and never hit a kept key |
| TemporalRegistry.RegistryDb.WriteRegistry | crates/fuel-core/src/graphql_api/da_compression.rs:126-157 | a write replaces value and timestamp, unindexes the replaced value and indexes the new one; other keyspaces are untouched |
| TemporalRegistry.RegistryDb.WriteToRegistry | crates/compression/src/registry.rs:81-92 | registrations of all five keyspaces are written in their listed order |
| TemporalRegistry.WriteKeepsSound | crates/fuel-core/src/graphql_api/da_compression.rs:126-157 | an indexed value's key holds it, exactly written keys are stamped, no stamp is later than the block, no default is stored: all kept by a write |
| TemporalRegistry.WriteAllKeepsSound | crates/compression/src/registry.rs:81-92 | the same for a whole list of registrations |
| TemporalRegistry.WriteAllMerges | crates/compression/src/compress.rs:152-162 | draining a hash map of changes merges it into the values and stamps exactly its keys, in whatever order |
| TemporalRegistry.DrainOrderIrrelevant | crates/compression/src/compress.rs:156-160 | values and timestamps do not depend on the order the changes are drained in |
| TemporalRegistry.WriteAllKeepsAgreement | crates/compression/src/decompress.rs:63-65 | registries that agree on values, timestamps and index agree after the same registrations |
| TemporalRegistry.WriteKeepsCompleteIff | crates/fuel-core/src/graphql_api/da_compression.rs:126-157 | a write loses a stored value from the index exactly when the value it replaces also lives under another key |
| RegistryIndex.ChainKeepsCompleteIff | crates/fuel-core/src/graphql_api/da_compression.rs:126-157 | over every chain of blocks each stored value can be found throughout, exactly when no registration overwrites a value that another key holds too |
| RegistryIndexLoss.IndexLosesValue | crates/fuel-core/src/graphql_api/da_compression.rs:126-157 | a chain of numbered blocks closed by their mints leads from the empty registry to one that stores a value within retention which the index does not find |
| RegistryIndex.IndexOrderIrrelevantIff | crates/compression/src/compress.rs:156-160 | the index does not depend on the drain order exactly if no two changes share a value and none overwrites a value another one registers |
| RegistryIndexLoss.OrderMatters | crates/compression/src/compress.rs:156-160 | at the end of such a chain one block has two compressions that differ in the order of its registrations, and only one leaves a stored value in the index |
| RegistryIndexLoss.ProperRoundTrips | crates/compression/src/decompress.rs:53-100 | every such chain decompresses to its blocks all the same |
| EvictionSafety.PrepareBlockKeeps | crates/compression/src/compress.rs:166-188 | the first pass keeps exactly the keys through which the block's values can be reused |
| EvictionSafety.AssignOk | crates/compression/src/compress.rs:212-217 | an assignment overwrites nothing, so neither collision assertion can fire; changes and reverse lookup stay inverse and off the kept keys |
| EvictionSafety.CompressValueOk | crates/compression/src/compress.rs:190-219 | the key a value gets stands for it: the default key, a new entry, or a reused key that was kept |
| EvictionSafety.CompressTransactionsOk | crates/compression/src/compress.rs:66-69 | at the end of a block every emitted key still stands for its value, and the new entries are exactly the values that could not be reused |
| EvictionSafety.CompressBodyOk | crates/compression/src/compress.rs:60-70 | the two passes together establish this from any registry that answers lookups |
| CompressionCapacity.ReusedAndFresh | crates/compression/src/compress.rs:177-185 | the keys a block reuses and the values it must register add up to its distinct values |
| CompressionCapacity.CompressSucceedsIff | crates/compression/src/compress.rs:50-77 | compression succeeds exactly when all spent outputs are known and every keyspace needs no new key or has fewer distinct values than there are keys |
| CompressionCursor.BlockCursor | crates/compression/src/eviction_policy.rs:21-62 | a block's cursor starts exactly one past the committed position, takes the positions the evictor allocates around the keys the block reuses, registers exactly their keys, and commits the last of them, or its start if it registers nothing |
| CompressionCursor.WalkPasses | crates/compression/src/eviction_policy.rs:42-54 | every key a block's cursor passes is one the block registers or reuses, or the block registers nothing and the cursor rests on it |
| CompressionCursor.ChainCursor | crates/compression/src/eviction_policy.rs:21-62 | over every chain each block's walk resumes right after its predecessor's stop, so the walks cover all positions without a gap |
| CompressionCursor.ChainRoundRobin | crates/compression/src/eviction_policy.rs:42-62 | between two registrations of one key, every other key was registered or reused by some block, or a block registered nothing and left the cursor on it |
| Compressor.PrepareCtx.CompressWith | crates/compression/src/compress.rs:166-188 | records a value's key as the first pass means it, with the same errors |
| Compressor.PrepareCtx.CompressBlock | crates/compression/src/compress.rs:66-66 | runs the first pass over all fields in order |
| Compressor.CompressCtx.FromPrepared | crates/compression/src/compress.rs:133-146 | each keyspace starts with its kept keys, its own evictor and no changes |
| Compressor.CompressCtx.CompressWith | crates/compression/src/compress.rs:190-219 | compresses one field as the second pass means it, changing its keyspace only |
| Compressor.CompressCtx.Assign | crates/compression/src/compress.rs:212-217 | takes the next free key and records it both ways |
| Compressor.CompressCtx.Finalize | crates/compression/src/compress.rs:152-162 | commits every evictor and writes every change under the block's time |
| Compressor.Compress | crates/compression/src/compress.rs:50-77 | a successful call is a compression step of the relation the chain theorem is about; a failed one leaves the registry as it was |
| Decompression.Decompress | crates/compression/src/decompress.rs:53-100 | registrations are replayed first and stay; the result is reading the keys back and patching the closing mint |
| ChainRoundTrip.StandsForReadsBack | crates/compression/src/decompress.rs:132-144 | after the registrations, a key that stands for a value reads back as that value and is accessible |
| ChainRoundTrip.PatchRecoversIff | crates/compression/src/decompress.rs:79-94 | patching recovers the transactions exactly when the block ends in a mint that points at itself |
| ChainRoundTrip.BlockKeepsLockstep | crates/compression/src/decompress.rs:63-65 | a compressed block leaves both parties with equal values, timestamps and index, and the registry sound |
| ChainRoundTrip.BlockRegistersFresh | crates/compression/src/compress.rs:201-217 | a block registers exactly those of its values that cannot be referred to, each once |
| ChainRoundTrip.BlockRegistersIff | crates/compression/src/config.rs:17-32 | a value of a block is registered exactly when the index has no key for it, or one older than the retention |
| DefaultValues.BlockDefaultsIff | crates/compression/src/compress.rs:198-200 | exactly ids of 32 zero bytes and code of no bytes come out of a compressed block as the reserved key, whatever the registry |
| DefaultValues.NoDefaultRegistered | crates/compression/src/compress.rs:198-200 | and no such value is registered |
| DefaultValues.ChainStoresNoDefault | crates/compression/src/compress.rs:198-200 | so none is stored in any registry of a chain |
| DefaultValues.ReservedKeyReads | crates/compression/src/decompress.rs:132-144 | the reserved key reads back as such a value and as nothing else |
| DefaultValues.OtherKeyReads | crates/compression/src/decompress.rs:132-144 | any other key reads back exactly as what is stored under it, if that was written within retention |
| ChainRoundTrip.BlockKeysAreRecent | crates/compression/src/config.rs:9-14 | every key a block emits, but the default one, refers to an entry no older than the retention |
| ChainRoundTrip.BlockRoundTripIff | crates/compression/src/decompress.rs:53-100 | a compressed block decompresses to itself exactly when it is closed by its mint |
| ChainRoundTrip.ChainRoundTrip | crates/compression/src/compress.rs:47-77 | over every chain with nondecreasing times and every drain order the decompressor recovers all blocks without an error and ends in lockstep |
| Coins.LargestAreBest | crates/fuel-core/src/coins_query.rs:132-134 | any k coins are worth at most the k largest |
| Coins.ReachableIff | crates/fuel-core/src/coins_query.rs:132-134 | a target can be met by at most max coins exactly when the max largest meet it |
| CoinsQuery.SortedByAmount | crates/fuel-core/src/coins_query.rs:142-142 | a permutation in descending order |
| CoinsQuery.LargestFirst | crates/fuel-core/src/coins_query.rs:135-176 | fails exactly when no max coins meet the target, reporting the most they are worth; otherwise a selection no smaller one could replace, with no coin taken after the target is met |
| CoinsQuery.Walk | crates/fuel-core/src/coins_query.rs:193-224 | takes the shuffled coins up to the first one refused |
| CoinsQuery.RandomWalkImproves | crates/fuel-core/src/coins_query.rs:200-219 | every coin added after the target is met brings the sum strictly closer to twice the target |
| CoinsQuery.RandomWalkIff | crates/fuel-core/src/coins_query.rs:198-223 | the walk takes every coin until the target is met, then exactly the coins no larger than twice the target that bring a sum below u64::MAX nearer to it, and stops at the first other |
| CoinsQuery.ImproveAsset | crates/fuel-core/src/coins_query.rs:185-232 | for every shuffle: fails exactly when the largest coins fail; otherwise a selection that meets the target and only improves |
| CoinsQuery.RandomImprove | crates/fuel-core/src/coins_query.rs:179-235 | answers every asset, or fails exactly when some asset cannot be answered |
| CoinsToSpend.EligibleMembers | crates/fuel-core/src/coins_query.rs:363-363 | exactly the excluded coins are left out |
| CoinsToSpend.SelectCoinsUntil | crates/fuel-core/src/coins_query.rs:350-373 | the first spendable coins, up to the limit or the first at which to stop, with their exact sum; a storage error in the stream comes out exactly when nothing stops the selection before it |
| CoinsToSpend.MaxDustCount | crates/fuel-core/src/coins_query.rs:382-390 | the count is drawn from zero up to five times the big coins or the room left, whichever is less |
| CoinsToSpend.SkipBigCoinsUpToAmount | crates/fuel-core/src/coins_query.rs:392-407 | leaves out the longest front whose value the dust covers |
| CoinsToSpend.BigCoinsDecide | crates/fuel-core/src/coins_query.rs:277-286 | the big coins reach the total exactly when some max spendable coins do |
| CoinsToSpend.DustStaysBehind | crates/fuel-core/src/coins_query.rs:338-348 | as much dust as was drawn, as far as there is any before the smallest big coin |
| CoinsToSpend.SelectionPays | crates/fuel-core/src/coins_query.rs:317-323 | retained big coins and dust are distinct, spendable, few enough and worth the total |
| CoinsToSpend.SelectCoinsToSpend | crates/fuel-core/src/coins_query.rs:237-324 | for every draw: without a storage error it succeeds exactly when some max spendable coins are worth the total; the big coins are the fewest worth twice the total, or all that are allowed; the dust is what was drawn; exactly the largest big coins that the dust pays for are left out; what is returned is distinct, unexcluded and sufficient; the other two error branches never occur |
| GasPriceExec.FullnessReachesIff | crates/fuel-gas-price-algorithm/src/v0.rs:108-113 | a block reaches the threshold exactly when its gas does |
| GasPriceExec.NextPriceBounds | crates/fuel-gas-price-algorithm/src/v0.rs:106-130 | one step stays within the percentage both ways despite floors and saturation, goes the way it should and not below the minimum |
| GasPriceExec.NextPriceIsExact | crates/fuel-gas-price-algorithm/src/v0.rs:106-130 | the step is the percentage of the price rounded down, exactly, unless the price runs into the largest number or its minimum |
| GasPriceExec.CompoundStep | crates/fuel-gas-price-algorithm/src/v0.rs:106-130 | steps compound: n steps stay within n compounded percentages |
| GasPriceV0.AlgorithmUpdaterV0.constructor | crates/fuel-gas-price-algorithm/src/v0.rs:70-85 | the starting price is at least the minimum |
| GasPriceV0.AlgorithmUpdaterV0.UpdateL2BlockData | crates/fuel-gas-price-algorithm/src/v0.rs:87-104 | accepts the next height only, and otherwise changes nothing |
| GasPriceV0.AlgorithmUpdaterV0.UpdateExecGasPrice | crates/fuel-gas-price-algorithm/src/v0.rs:106-124 | the price moves by the step the block's fullness asks for |
| GasPriceV0.PriceFollowsFullness | crates/fuel-gas-price-algorithm/src/v0.rs:113-123 | full blocks never lower the price, others never raise it |
| GasPriceV0.NextIsExact | crates/fuel-gas-price-algorithm/src/v0.rs:87-124 | exactly the next height is accepted and moves the price by exactly one step, up if the block is full and else down; a refusal names both heights |
| GasPriceV0.RunGrows | crates/fuel-gas-price-algorithm/src/v0.rs:113-130 | n accepted full blocks add at least n times a percentage of the starting price, up to the largest number |
| GasPriceV0.RunFalls | crates/fuel-gas-price-algorithm/src/v0.rs:113-130 | n accepted blocks that are not full take off at least n times a percentage of any floor, down to it |
| GasPriceV0.RunCompounds | crates/fuel-gas-price-algorithm/src/v0.rs:87-130 | after n accepted updates of any run the price is within n compounded steps and above its minimum |
| GasPriceV1.L2ActivityTracker.constructor | crates/fuel-gas-price-algorithm/src/v1.rs:228-263 | the three ranges are stacked in order and activity starts within them |
| GasPriceV1.L2ActivityTracker.Update | crates/fuel-gas-price-algorithm/src/v1.rs:289-301 | activity moves by one, within zero and the maximum |
| GasPriceV1Updater.AlgorithmUpdaterV1.UpdateL2BlockData | crates/fuel-gas-price-algorithm/src/v1.rs:375-421 | accounts, activity, prices and metadata after a block, in that order; a skipped block changes nothing |
| GasPriceV1Updater.AlgorithmUpdaterV1.UpdateDaGasPrice | crates/fuel-gas-price-algorithm/src/v1.rs:497-528 | the DA price is the controller's, limited by activity and range |
| GasPriceV1Updater.AlgorithmUpdaterV1.UpdateDaRecordData | crates/fuel-gas-price-algorithm/src/v1.rs:355-373 | recorded blocks are forgotten and booked, then the projection and the price recomputed; on zero bytes the first part stays |
| GasPriceV1Updater.AlgorithmUpdaterV1.UpdateUnrecordedBlockBytes | crates/fuel-gas-price-algorithm/src/v1.rs:624-647 | the blocks of a range of heights leave the map and exactly their bytes leave the counter |
| GasPriceV1Runs.L2KeepsBytesIff | crates/fuel-gas-price-algorithm/src/v1.rs:412-418 | an accepted block keeps counter and map equal exactly when it replaces no bytes |
| GasPriceV1Runs.TopHeightDrifts | crates/fuel-gas-price-algorithm/src/v1.rs:384-391 | at the largest height counter and map drift apart |
| GasPriceV1Runs.RunKeepsBytesIff | crates/fuel-gas-price-algorithm/src/v1.rs:595-647 | over every run, failed DA updates included, the counter is the sum of the unrecorded blocks throughout exactly when no accepted block replaces bytes |
| GasPriceV1Runs.RunKeepsBytes | crates/fuel-gas-price-algorithm/src/v1.rs:595-647 | which holds of every run with at most one block at the largest height, and then the counter is under 2^96 |
| GasPriceV1Runs.StartKeepsBytes | crates/fuel-gas-price-algorithm/src/v1.rs:177-178 | in particular from the start, with no unrecorded blocks and a zero counter |
| GasPriceV1Runs.RunKeepsSync | crates/fuel-gas-price-algorithm/src/v1.rs:434-440 | in every run without a failed DA update the projected cost is what recomputing it gives, saturation included |
| GasPriceV1Runs.SyncedSinceDa | crates/fuel-gas-price-algorithm/src/v1.rs:649-656 | the same from any state at all after a successful DA update and any number of L2 updates |
| GasPriceV1Runs.FailingDaKeepsSyncIff | crates/fuel-gas-price-algorithm/src/v1.rs:602-614 | a failed DA update keeps the projection right exactly when its cost is what the removed bytes were projected to cost, or both projections saturate |
| GasPriceV1Runs.RunKeepsSyncIff | crates/fuel-gas-price-algorithm/src/v1.rs:602-614 | over every run, failed DA updates included, the projection is right throughout exactly when none of them has such a cost |
| GasPriceV1Runs.FailingDaDrifts | crates/fuel-gas-price-algorithm/src/v1.rs:602-614 | on a fresh start a failed DA update with cost one leaves the projection wrong |
| GasPriceV1Prices.ExecPriceFollowsFullness | crates/fuel-gas-price-algorithm/src/v1.rs:468-490 | full blocks never lower the execution price, others never raise it |
| GasPriceV1Prices.RunCompounds | crates/fuel-gas-price-algorithm/src/v1.rs:468-495 | the scaled execution price compounds with accepted blocks only and stays above its minimum |
| GasPriceV1Prices.DaChangeSign | crates/fuel-gas-price-algorithm/src/v1.rs:556-578 | with components that are not negative, profit that is not falling never raises the price and losses that are not shrinking never lower it |
| GasPriceV1Prices.DaPriceRisesWithProfitIff | crates/fuel-gas-price-algorithm/src/v1.rs:497-587 | more profit leads to a higher DA price exactly when activity turns an increase into the largest decrease, the larger profit asks for a smaller decrease, and the range leaves room; in no other mode |
| GasPriceV1Prices.ForcedDecreaseInverts | crates/fuel-gas-price-algorithm/src/v1.rs:530-543 | such a case: a loss lowers the price further than no profit at all |
| GasPriceV1Prices.NextDaPriceMoves | crates/fuel-gas-price-algorithm/src/v1.rs:497-587 | the new DA price is in range; from inside it moves by at most the largest change, and not up unless activity is normal |
| GasPriceV1Prices.StepMovesDaPrice | crates/fuel-gas-price-algorithm/src/v1.rs:497-543 | every event moves the DA price by these rules or not at all |
| GasPriceV1Prices.RunStaysInDaRange | crates/fuel-gas-price-algorithm/src/v1.rs:545-554 | once in range, the DA price stays there over every run |
| GasPriceV1Exact.L2AcceptedIff | crates/fuel-gas-price-algorithm/src/v1.rs:384-391 | exactly the next height is accepted; a refusal names both heights and changes nothing |
| GasPriceV1Exact.L2StepAccounts | crates/fuel-gas-price-algorithm/src/v1.rs:393-418 | an accepted block adds the DA price's share of its fee to the rewards and its bytes at the cost per byte to the projection; profit is the one less the other, and the profit before is kept |
| GasPriceV1Exact.L2StepActivity | crates/fuel-gas-price-algorithm/src/v1.rs:423-427 | activity goes up by one if the block's gas reaches the threshold and else down by one, within its range |
| GasPriceV1Exact.ExecPriceIsExact | crates/fuel-gas-price-algorithm/src/v1.rs:468-495 | the execution price moves by exactly one step per accepted block, and by nothing else |
| GasPriceV1Exact.DaFailsIff | crates/fuel-gas-price-algorithm/src/v1.rs:355-373 | a DA record fails exactly when it has heights and no bytes; one without heights changes nothing |
| GasPriceV1Exact.DaStepBooks | crates/fuel-gas-price-algorithm/src/v1.rs:595-647 | a DA record removes exactly its heights and their bytes and adds its cost, whether or not it fails; profit, activity and execution price stay |
| GasPriceV1Exact.DaStepProjects | crates/fuel-gas-price-algorithm/src/v1.rs:602-656 | the cost per byte is the record's cost over its bytes rounded down, and the projection known cost plus unrecorded bytes at that cost |
| GasPriceV1Exact.DaPriceIsSteered | crates/fuel-gas-price-algorithm/src/v1.rs:497-587 | the DA price moves against profit over the P component plus slope over the D component, both rounded toward zero, scaled, limited to the largest change, held or turned around by activity, and kept in its range |
| GasPriceV1Exact.StepIsSteered | crates/fuel-gas-price-algorithm/src/v1.rs:497-543 | every event sets the DA price so, by profit and activity as it leaves them, or leaves it alone |
| GasPriceV1Exact.CoverDecides | crates/fuel-gas-price-algorithm/src/v1.rs:393-408 | after any run, a block whose rewards cover its projected cost, with profit not falling, never raises the DA price; in normal activity one whose rewards do not, with profit not rising, never lowers it |
| GasPriceV1Exact.RunGrows | crates/fuel-gas-price-algorithm/src/v1.rs:468-495 | n accepted full blocks add at least n times a percentage of the starting execution price |
| GasPriceV1Exact.RunFalls | crates/fuel-gas-price-algorithm/src/v1.rs:468-495 | n accepted blocks that are not full take off at least n times a percentage of any floor, down to it |
| GasPriceV1Exact.IdleLeadsToDecreaseIff | crates/fuel-gas-price-algorithm/src/v1.rs:279-301 | a run whose blocks are idle leads to the decreasing mode exactly when enough of them are accepted |
| GasPriceV1Exact.BusyLeadsToNormalIff | crates/fuel-gas-price-algorithm/src/v1.rs:279-301 | a run whose blocks are busy leads back to the normal mode exactly when enough of them are accepted |
| GasPriceV1Prices.PortionIsShare | crates/fuel-gas-price-algorithm/src/v1.rs:443-453 | the DA portion is its price's share of the fee, rounded up |
| GasPriceV1Prices.PortionWithinFee | crates/fuel-gas-price-algorithm/src/v1.rs:443-453 | and never exceeds the fee, even when the product saturates |
| GasPriceV1Prices.RunRewards | crates/fuel-gas-price-algorithm/src/v1.rs:429-432 | over any run rewards grow by no more than the accepted fees |
| Databases.HistoricalRocksDB.ReverseHistoryChanges | crates/fuel-core/src/state/historical_rocksdb.rs:137-175 | computes the changes that bring back what is replaced |
| Databases.HistoricalRocksDB.StoreModificationsHistory | crates/fuel-core/src/state/historical_rocksdb.rs:218-289 | forgets the height that leaves the window and records the new one in both tables; does nothing under the policy without rewinding |
| Databases.HistoricalRocksDB.CommitChanges | crates/fuel-core/src/state/historical_rocksdb.rs:567-595 | commits a list of change sets: with history for a commit that has a height, the sets collected column by column; otherwise all of them, or none if a key is written twice |
| Databases.HistoricalRocksDB.PopulateBatch | crates/fuel-core/src/state/rocks_db.rs:1001-1064 | the batch holds every change of every set, or a conflict is reported exactly when two sets write one key |
| ChangeLists.CollectsAllIff | crates/fuel-core/src/state/historical_rocksdb.rs:576-581 | of sets that write no key twice, every change takes effect under a policy with history exactly when no two share a column, and exactly then it is what is written without history |
| ChangeLists.SharedColumn | crates/fuel-core/src/state/historical_rocksdb.rs:576-581 | two sets with different keys in one column: with history the earlier one is lost, without it is written |
| Databases.HistoricalRocksDB.RollbackBlockTo | crates/fuel-core/src/state/historical_rocksdb.rs:344-372 | undoes a height if its history is there, and otherwise changes nothing |
| HistoryProofs.UndoIsExact | crates/fuel-core/src/state/historical_rocksdb.rs:344-372 | undoing a block gives the earlier store back exactly |
| HistoryProofs.CommitPushes | crates/fuel-core/src/state/historical_rocksdb.rs:218-287 | a commit pushes a snapshot; retained heights stay without a gap under every rewind policy |
| HistoryProofs.RangeRetainsIff | crates/fuel-core/src/state/historical_rocksdb.rs:445-461 | which heights a commit under a rewind window retains: all but the one leaving it, and but height zero while the chain is shorter than the window |
| HistoryProofs.RollbackPops | crates/fuel-core/src/state/historical_rocksdb.rs:344-372 | a rollback succeeds exactly when history was kept, and pops the last snapshot |
| HistoryProofs.ReadAtIsExactIff | crates/fuel-core/src/state/historical_rocksdb/view_at_height.rs:51-85 | reading at any height the history admits finds exactly the store of that height, except for keys that the block at the largest height of all changed |
| HistoryProofs.MaxHeightReadMisses | crates/fuel-core/src/state/historical_rocksdb/view_at_height.rs:51-85 | such a key, read from the store at the largest height |
| HistoryProofs.FullRangeReadsIff | crates/fuel-core/src/state/historical_rocksdb.rs:184-216 | under the full-range policy exactly the heights since the first block can be read |
| Databases.Database.constructor | crates/fuel-core/src/database.rs:203-220 | the cache starts as the stored height |
| Databases.Database.CommitChangesWithHeightUpdate | crates/fuel-core/src/database.rs:474-579 | commits a list of change sets with updated metadata and cache, or refuses and changes nothing |
| DatabaseModel.CommitListIsCommit | crates/fuel-core/src/database.rs:557-572 | a list is committed as the one set it collects or merges to, or refused for writing a key twice, the metadata included where there is no history |
| DatabaseModel.CommitMetadata | crates/fuel-core/src/database.rs:582-615 | a commit with a height stores the description's version and that height; metadata of the first kind stays so, metadata of the second kind keeps its indexation, and new metadata takes the description's |
| Databases.Database.RollbackLastBlock | crates/fuel-core/src/database.rs:329-348 | undoes the cached height and steps the cache back, or changes nothing |
| DatabaseModel.CommitKeepsIff | crates/fuel-core/src/database.rs:541-579 | an accepted commit keeps heights consecutive and cache and metadata equal, exactly unless it has no height and sets one in the metadata itself |
| DatabaseModel.RollbackKeeps | crates/fuel-core/src/database.rs:329-348 | a rollback succeeds exactly when the cached height has history, and removes the last block |
| DatabaseModel.RollbackConsistentIff | crates/fuel-core/src/database.rs:338-340 | cache and metadata agree after a rollback exactly when metadata is restored or the height was zero |
| DatabaseRuns.RunConsistentIff | crates/fuel-core/src/database.rs:474-579 | over every run of commits, rollbacks and restarts the cached height equals the stored one throughout, exactly when no commit without a height sets one and no rollback removes the first height, unless that is zero |
| DatabaseRuns.RunRefines | crates/fuel-core/src/database.rs:474-579 | over every run whose commits without a height do not set one, the database refines the snapshots which its accepted commits push and its rollbacks pop |
| DatabaseRuns.RunIsLive | crates/fuel-core/src/database.rs:474-579 | those snapshots are exactly the stores right after the commits that were not rolled back |
| DatabaseRuns.LiveHeights | crates/fuel-core/src/database.rs:493-539 | the commits not rolled back have consecutive heights, ending at the cached one, and the store is what the last of them left |
| DatabaseRuns.LiveReads | crates/fuel-core/src/database.rs:388-406 | after every run, reading at the height of such a commit finds exactly what it left, if it is the last or there is history for it or the next, and is refused otherwise |
| DatabaseRuns.OtherReads | crates/fuel-core/src/database.rs:388-406 | any other height is refused, except the one right below while the first of those commits can be undone |
| DatabaseRuns.RunKeepsIndexation | crates/fuel-core/src/database.rs:582-615 | over every run, as long as there is metadata, it records the same indexes, whatever the description says |
| DatabaseRuns.NewDatabaseIndexation | crates/fuel-core/src/database.rs:582-615 | after every run from an empty store it records the description's, if there is metadata |
| DatabaseRuns.NextCommitIff | crates/fuel-core/src/database.rs:493-539 | after a run with such commits exactly the next height is accepted, no commit without a height, and without history none that writes the metadata itself |
| DatabaseRuns.ReopenKeeps | crates/fuel-core/src/database.rs:203-220 | opening the store again keeps the blocks and makes cached and stored height equal, whatever they were |
| DatabaseRuns.RollbackTimesIff | crates/fuel-core/src/database.rs:329-348 | the last n blocks can be undone exactly when the oldest of them has history |
| DatabaseRuns.LiveRollback | crates/fuel-core/src/database.rs:329-348 | undoing n blocks of any run gives the store and height right after the commit n before the last |
| DatabaseRuns.RangeRunRetainsIff | crates/fuel-core/src/state/historical_rocksdb.rs:445-461 | after a run of commits a window has history for exactly its last heights, without height zero once there is a height above it |
| DatabaseRuns.RangeRollbackIff | crates/fuel-core/src/state/historical_rocksdb.rs:445-461 | so the blocks that can be undone are those within the window, except height zero below another |
| DatabaseRuns.FirstBlockRollback | crates/fuel-core/src/database.rs:338-340 | undoing a first block at height five of an empty store leaves cached height four and no stored one, until the store is opened again |
| DatabaseRuns.HeightWithoutCommit | crates/fuel-core/src/database.rs:502-506 | a commit without a height that writes height seven into the metadata is accepted, and that height is stored but not cached |
| DatabaseRuns.HeightZeroForgotten | crates/fuel-core/src/state/historical_rocksdb.rs:445-461 | with blocks zero and one under a window of five, one can be undone and two cannot |
| DatabaseRuns.CommitThenRollback | crates/fuel-core/src/database.rs:329-348 | rolling back a commit gives the store back |
| CombinedDatabases.RollbackTowards | crates/fuel-core/src/combined_database.rs:429-441 | undoing one block above the target neither opens nor closes the way to it |
| CombinedDatabases.HoldsIsLive | crates/fuel-core/src/combined_database.rs:373-451 | where the snapshots come from a run, "what it was there" is the store right after the run's commit at that height |
| CombinedDatabases.CombinedDatabase.RollbackTo | crates/fuel-core/src/combined_database.rs:373-451 | terminates; uninterrupted it succeeds exactly when every database can be brought to the target; each database at the target holds exactly what it held there; no block at or below the target is undone; a too-low height changes nothing; it succeeds short of the target exactly when the first shutdown request comes before the last of the rounds needed and is withdrawn at the next question |
| CombinedDatabases.WithdrawnShutdown | crates/fuel-core/src/combined_database.rs:444-450 | such a success, with nothing rolled back |
| CombinedDatabases.CombinedDatabase.SyncAuxDbHeights | crates/fuel-core/src/combined_database.rs:459-495 | terminates; never touches on-chain; uninterrupted it succeeds exactly when each auxiliary database above it can be rolled back to it, and then neither is above; one at the on-chain height holds what it held there; nothing at or below it is undone |

## Left out

- Async execution, streams that yield, tracing and error contexts: only the sequential effect is modelled.
- Storage errors of the underlying key-value stores, other than in the streams of coins to spend: reads and writes of tables succeed.
- The structure of transactions, their derived compression and the binary encoding of blocks: a transaction is a list of registry values and spent outputs, and a mint with its pointer.
- Coin and message details restored from history by decompression: spent outputs are looked up in maps assumed to undo each other.
- Registry keys come from a crate that is not part of this model: 24-bit integers, the largest reserved for the default value, `next` cyclic on the others.
- The index by hash of script and predicate code is keyed by the code itself, so hash collisions are not modelled.
- The size check of `next_key`, a debug assertion, is an error of the compression step; without it the original would search on until the key space is full.
- Retention is in whole seconds, which is all that block times can tell apart.
- The shuffle and the random dust count are arbitrary: a permutation and a draw within the bound, both given by the caller.
- `select_coins_to_spend` on streams that are not sorted, not distinct or not each other's reverse: the index yields none.
- Worst-case price estimates: they use floating point.
- Byte order of history keys, key prefixes and the older history table: history is a table by key and height.
- ChangeLists.CollectsAllIff: does not cover a change set that names a column without a key in it; a column belongs to a set through its keys.
- Concurrent commits through cloned database handles: runs are sequential.
- Negative components of the DA price controller: they turn its sign around, and the statements on its direction are for the others.
- The block executor, transaction pool, relayer, networking and consensus services: subsystems of their own, outside the four parts modelled here.
- GraphQL pagination, configuration and command line tools: they translate requests and options and keep no state across calls that an invariant could speak of.
