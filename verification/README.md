# rBTC in Dafny

A Dafny 4.11 model of the parts of the rBTC node kernel whose correctness is
hard to see from one function at a time, with machine-checked proofs about it.
`dafny verify dfyconfig.toml` checks everything.

What is modelled:

- **Chainstate** (`Coins`, `Transactions`, `TxVerdict`, `Blocks`, `BlockVerdict`,
  `Overlay`, `Connect`, `BlockApply`, `Reorg`, `ReorgRuns`, `Supply`, `Subsidy`,
  `Recovery`). The
  coin set is a map from outpoints to coins. One transaction is checked against
  it, a block runs its transactions in order against a sharded overlay, a
  failure rolls back, a store connects and disconnects blocks, and an
  interrupted transition is recovered. Main results: a transaction, and a block,
  is accepted exactly when conditions written out over the coins hold, and refused
  for the first that fails; a failed block is
  invisible, disconnecting inverts connecting, coins depend only on the current
  chain after any run of single connects, batches, disconnects and prunings, value
  is conserved to the satoshi, the supply is bounded, and recovery may itself be
  interrupted anywhere.
- **Batches** (`Versions`, `Delta`, `Scripts`, `Batch`, `BatchDriver`,
  `BatchCommit`, `BatchFold`, `BatchConnect`). Blocks of a batch are prepared at
  once against a versioned view, scripts run in a pool, and the batch commits in
  one transaction. Main result: whatever the workers do in whatever order, the batch
  commits the coins and undo rows of connecting its blocks one by one, or it
  commits nothing and reports the error that would meet first.
- **Merkle root** (`Merkle`). Main result: unmutated lists with one root are one list.
- **asmap** (`AsmapCode`, `AsmapCheck`, `AsmapShape`, `AsmapTrie`, `AsmapEmit`, `Asmap`). The
  bytecode, its interpreter, its validator and the test-support encoder from prefix
  tables (whose assertion against an all-unknown table is a `None` result here).
  Main results: a program is accepted exactly when it is the layout of a legal
  tree, and running it evaluates that tree; accepted programs run cleanly on every
  address; and the encoder preserves meaning exactly when every answered ASN is
  encodable.
- **Snapshot index** (`CoreCodec`, `CoreAmount`, `CoreScript`, `Snapshot`,
  `BitRank`, `BbHash`, `BbHashBuild`, `SnapshotIndex`, `SnapshotGet`,
  `SnapshotWrite`, `Sidecar`, `SidecarFile`, `SidecarIo`). Core's codecs, the minimal perfect hash, lookups
  and the sidecar file, on bytes. Main results: the hash is a bijection for any
  hash function, a lookup answers what a linear scan answers, the coins written to
  a file are the coins found in it, and printer and parser undo each other.
- **Optional indexes** (`IndexCodec`, `AuxIndex`, `AuxRuns`, `AuxLookup`,
  `AuxVerdict`). Main results: the table equals a fresh build of the current chain
  after any run, lookups answer from the chain alone, and which chains are accepted.
- **Archive framing** (`Archive`, `ArchiveStream`). Main result: feeding a stream
  in any chunks gives the verdict of parsing it whole.
- **Admission ledger** (`Admission`). Main result: the integer bucket follows the
  ideal one exactly.

Conventions. Machine integers are natural numbers with their bounds, saturation
and wrap-around written out (`Words`, `BitRank`, `Reduced` in `CoreCodec`).
Hashes, transaction ids and filters are symbols or arbitrary functions. Scripts,
signature-operation counts, block structure beyond the coinbase rules, and the
curve are parameters: every result holds for any choice of them, the curve
obeying two laws: a valid point is recovered from its x coordinate and parity,
and whatever is recovered is a valid point with that x coordinate and parity.
Worker threads are an arbitrary order of independent steps. A storage
transaction is atomic. `Arith`, `Basics`, `Bytes` and `Words` hold shared arithmetic.

The freshness contract. The source's fast paths rely on the caller to guarantee
that an output a block creates is not already unspent, unless it is removed first
under the BIP 30 exception, and that two transactions of a block do not create
the same output. It is stated as `FreshCandidate` in `Connect` and `BatchFresh`
in `Batch`, and required only where it is needed.

Where code and documentation differ, the model follows the code:

- `write_core_varint` is documented as the exact inverse of `read_core_varint`, but
  the shift in the reader drops high bits unchecked, so larger encodings are
  accepted and wrap (`VarintConverse`, `VarintWraps`).
- `compress_amount` is documented as the exact inverse of `decompress_amount`, but
  its unchecked arithmetic overflows for amounts that no 64-bit code stands for
  (`CompressExactlyWhen`, `CompressOverflows`). No amount in the money range is one.
- `compress_script` is documented as the exact inverse of `decompress_script`.
  It is one way only: a template script in raw form is accepted and compresses to
  something else (`ScriptConverse`, `RawTemplateIsAccepted`).
- `undo` is documented as reversing any prior mutation, but the overlay refuses a
  key that was both spent and re-created, where the durable store does not
  (`UndoPathsDiffer`, `RecreatedCoinBlocksOverlay`).

## Model

| member | source | states |
|---|---|---|
| `Coins.Change` | src/utxo.rs:1420-1478 | removals first, then insertions: what every key answers afterwards |
| `Coins.Revert` | src/utxo.rs:1171-1206 | undoing restores the removed coins and drops the inserted keys, key by key |
| `Coins.RevertUndoesChange` | src/utxo.rs:1171-1206 | the undo record of a mutation restores the store it was applied to |
| `Transactions.CreatedMap` | src/chainstate.rs:706-739 | the coins a transaction creates are keyed by exactly its spendable outputs |
| `Transactions.CreatedFromKeys` | src/chainstate.rs:706-734 | created outpoints are distinct and in output order |
| `Transactions.SumOutputs` | src/chainstate.rs:402-411 | the output total, or the first money-range or overflow failure |
| `Transactions.FindShapeError` | src/chainstate.rs:438-447 | the first null or repeated input |
| `Transactions.PrepareTransaction` | src/chainstate.rs:376-497 | the checking loop decides as the sequential specification does, error for error |
| `Transactions.PreparedFacts` | src/chainstate.rs:402-497 | a passing transaction spends distinct present coins worth no less than its outputs |
| `TxVerdict.AcceptedExactlyWhen` | src/chainstate.rs:376-497 | a transaction is accepted exactly when size, lock time, outputs, names, presence, maturity, relative locks and totals are in order, each written out over the coins; and then with those coins and totals |
| `TxVerdict.RefusedForCause` | src/chainstate.rs:376-497 | a refusal names the first condition that fails in the order of the checks, with its outpoint and bound, every earlier one holding |
| `TxVerdict.InputErrorIs` | src/chainstate.rs:452-478 | an input passes exactly when its coin is money, mature and not locked, and the total stays money |
| `TxVerdict.LockPasses` | src/chainstate.rs:671-704 | a relative lock is passed exactly from the height or median time its literal bits stand for |
| `TxVerdict.CreatedExactly` | src/chainstate.rs:706-739 | exactly the outputs that are no data carriers and at most 10,000 bytes become coins, each with its value, script, height, time and origin |
| `Blocks.StructureError` | src/blockchain.rs:951-998 | a block passes exactly when its only coinbase is first and no foreign check objects; otherwise the first objection in order |
| `Blocks.RunSettles` | src/blockchain.rs:640-702 | while a fresh block runs, its view is the start plus all it created minus all it spent |
| `BlockVerdict.RunsExactlyWhen` | src/blockchain.rs:640-702 | a transaction list runs exactly when each passes on the coins it finds, fees are at most the money range and signature operations at most 80,000; and leaves those coins and totals |
| `BlockVerdict.AccountExactly` | src/blockchain.rs:663-688 | which total a transaction that passes breaks, in order, if any |
| `BlockVerdict.RunEndsWith` | src/blockchain.rs:640-702 | a run that ends early is reported by the broken total, or by the transaction, unless an earlier script failed |
| `BlockVerdict.ScriptsExactly` | src/blockchain.rs:884-909 | script checks fail exactly when some script does, and the first is reported |
| `BlockVerdict.ClaimExactly` | src/blockchain.rs:703-740 | the coinbase may claim exactly up to subsidy and fees within 64 bits; otherwise the excess or overflow is reported, unless a script failed |
| `BlockVerdict.ExceptionIs` | src/block_execution.rs:2248-2267 | an enforced collision without the exception refuses the block; with it, exactly the overlapping coins are removed |
| `BlockVerdict.ConnectsExactlyWhen` | src/block_execution.rs:306-338 | a block connects exactly when nothing collides, its structure is right, its transactions run on the coins they find, its scripts pass and its claim is allowed; and with what result |
| `BlockVerdict.RefusedAtTheEnd` | src/blockchain.rs:703-740 | a block that runs and is refused is refused for its first failing script, or else for its claim |
| `BlockVerdict.RefusedOnTheWay` | src/blockchain.rs:640-702 | a block whose run ends early is refused as the run is, for the first cause of its transaction |
| `BlockVerdict.StoreConnectsExactlyWhen` | src/chain_store.rs:2271-2297 | a store connects a block exactly when it meets its conditions and its hash is new, and then holds its coins, tip and one more undo row |
| `Overlay.UtxoOverlay.constructor` | src/block_execution.rs:1852-1870 | a new overlay shows its base |
| `Overlay.UtxoOverlay.Load` | src/block_execution.rs:1879-1896 | a read answers from the logical view and changes only the cache |
| `Overlay.UtxoOverlay.CachedValue` | src/block_execution.rs:1901-1903 | a cached read answers the logical value of exactly the cached keys |
| `Overlay.UtxoOverlay.Write` | src/block_execution.rs:1967-1979 | a write changes one key of the logical view |
| `Overlay.UtxoOverlay.WriteAll` | src/block_execution.rs:2016-2021 | spends and creations together are the change of the view |
| `Overlay.UtxoOverlay.LoadSpent` | src/block_execution.rs:1999-2007 | the coins to spend, or the first repeated or missing key |
| `Overlay.UtxoOverlay.CheckCreated` | src/block_execution.rs:2008-2015 | the first key that repeats or is still present |
| `Overlay.UtxoOverlay.ApplyWithUndo` | src/block_execution.rs:1994-2026 | applies with its exact undo record, or reports the first error and changes nothing |
| `Overlay.AppliesExactlyWhen` | src/block_execution.rs:1999-2015 | a mutation is accepted exactly when it spends distinct present coins and creates distinct keys that are absent or being spent |
| `Overlay.UtxoOverlay.CheckFresh` | src/block_execution.rs:2111-2121 | with fresh outputs, cached probes alone find every collision |
| `Overlay.UtxoOverlay.ApplyFreshFromPrevouts` | src/block_execution.rs:2080-2132 | under the freshness contract the unprobed fast path equals the probing one; a key it has not cached counts as missing, and the refusal is the first in order |
| `Overlay.UtxoOverlay.TakeCached` | src/block_execution.rs:2091-2110 | the coins handed in are taken, or the first repeated or uncached key is reported |
| `Overlay.UtxoOverlay.UndoMutation` | src/block_execution.rs:2134-2148 | undo is refused exactly when a coin to restore is present, and otherwise reverts |
| `Overlay.UtxoOverlay.RemoveCreated` | src/block_execution.rs:2140-2143 | undo first drops the created keys |
| `Overlay.UtxoOverlay.NetChanges` | src/block_execution.rs:1809-1844 | the net change over all shards is the difference of base and view |
| `Overlay.UtxoOverlay.AddShard` | src/block_execution.rs:1813-1834 | one shard contributes exactly the changed keys it holds |
| `Overlay.NetChangeIsExact` | src/block_execution.rs:1809-1844 | applying the net change to the base gives the view, touches only changed keys, spends only base keys, and its undo leads back |
| `Overlay.UtxoOverlay.TierStats` | src/block_execution.rs:2198-2224 | the count kept by deltas is the exact size of the view |
| `Overlay.UtxoOverlay.CountShard` | src/block_execution.rs:2205-2217 | one shard's delta is the difference in keys it makes |
| `Overlay.Partition` | src/block_execution.rs:1938-1942 | prefetched coins are split by shard, none lost or invented |
| `Overlay.UtxoOverlay.SeedPrefetched` | src/block_execution.rs:1931-1965 | seeding shards in any order caches exactly the prefetched keys and shows the same view |
| `Overlay.UtxoOverlay.SeedAll` | src/block_execution.rs:1932-1937 | serial seeding does what sharded seeding does |
| `Connect.PreparedIsInvertible` | src/block_execution.rs:1768-1790 | the undo record of a checked transaction is permitted and leads back |
| `Connect.PreparedUndo` | src/block_execution.rs:1768-1790 | the undo record of any checked transaction holds exactly the coins it spends and the keys it creates |
| `Connect.RunReverts` | src/blockchain.rs:1089-1099 | undoing a run transaction by transaction, last first, never fails and restores its start |
| `Connect.FreshAfterBip30` | src/block_execution.rs:2248-2267 | once excepted coins are removed, every output of the block is new |
| `Connect.ReadyFacts` | src/block_execution.rs:1133-1225 | what a prepared block removed and where its transactions started |
| `Connect.DisconnectInvertsConnect` | src/blockchain.rs:1089-1099 | a block's undo records in reverse restore the coins before it, overwritten ones included |
| `BlockApply.ResolveInputs` | src/chainstate.rs:452-454 | inputs resolve to the overlay's view |
| `BlockApply.ApplyTransaction` | src/chainstate.rs:247-295 | checks and applies one transaction as the view alone decides, when what it creates is absent or spent by itself |
| `BlockApply.VerifyScripts` | src/blockchain.rs:884-909 | the least failing script of the transactions so far |
| `BlockApply.Rollback` | src/blockchain.rs:1125-1137 | rollback succeeds exactly when every undo step in turn is permitted; otherwise it stops, with the later records undone, at a coin the next one is to restore and that is present |
| `BlockApply.Abandon` | src/blockchain.rs:668-699 | a failure is reported after rolling back, or the rollback's own failure is, with the coin it stopped at |
| `BlockApply.OneMoreReverts` | src/blockchain.rs:1125-1137 | with one more transaction applied, rolling everything back still leads to the start |
| `BlockApply.ApplyNext` | src/blockchain.rs:640-702 | one transaction with fees and signature operations; on failure the view is the start again |
| `BlockApply.FinishBlock` | src/blockchain.rs:703-751 | script and coinbase checks at the end, scripts outranking, with full rollback |
| `BlockApply.ApplyBlock` | src/blockchain.rs:618-751 | the outcome of sequential execution; any failure leaves the view exactly as it was |
| `Reorg.FindCollisions` | src/block_execution.rs:2227-2246 | all outputs of the block that are already unspent |
| `Reorg.ChainStore.ApplyBip30` | src/block_execution.rs:2248-2267 | excepted coins are removed with their undo record, or the collision is refused |
| `Reorg.ChainStore.ApplyChanges` | src/utxo.rs:1420-1478 | accepted exactly when removed keys exist and inserted ones do not, otherwise nothing changes; a missing key outranks a duplicate |
| `Reorg.ChainStore.ConnectActiveBlock` | src/block_execution.rs:306-338 | coins, undo records and tip move together to the sequential result, or nothing moves |
| `Reorg.ChainStore.DisconnectTip` | src/block_execution.rs:2274-2322 | the tip is undone by its retained records, or nothing changes: genesis, missing records, or a coin that blocks the undo |
| `Reorg.DisconnectUndoesConnect` | src/block_execution.rs:2274-2322 | disconnecting a block just connected restores the whole store: coins, tip and undo records |
| `Reorg.NetApplies` | src/chain_store.rs:2271-2297 | a net change is always accepted by the store it was computed from |
| `ReorgRuns.ConnectStaysSound` | src/block_execution.rs:306-338 | connecting keeps coins, tip and undo records those of the chain |
| `ReorgRuns.BatchStaysSound` | src/block_execution.rs:666-1096 | a batch keeps coins, tip and undo records those of the chain |
| `ReorgRuns.DisconnectExactlyWhenRetained` | src/block_execution.rs:2274-2322 | the tip can be disconnected exactly when its undo records were kept |
| `ReorgRuns.DisconnectStaysSound` | src/block_execution.rs:2274-2322 | disconnecting keeps coins, tip and undo records those of the chain |
| `ReorgRuns.CoinsDependOnlyOnTheChain` | src/block_execution.rs:306-338 | after any run of single connects, batches, disconnects and prunings, the coins are the replay of the current chain, and undo records are of its own blocks only |
| `Supply.TxConserves` | src/chainstate.rs:402-497 | a transaction moves exactly its value: inputs out, outputs in, unspendable value lost |
| `Supply.RunConserves` | src/blockchain.rs:640-702 | coins, fees and burned value balance against the coinbase at every transaction |
| `Supply.BlockConserves` | src/blockchain.rs:712-740 | the exact change of the total by a block, and the coinbase never claims more than subsidy and fees |
| `Supply.NoInflation` | src/blockchain.rs:712-740 | a block adds at most its subsidy |
| `Supply.ReplayMints` | src/blockchain.rs:640-740 | replaying a chain adds at most its subsidies |
| `Subsidy.MintedBounded` | src/blockchain.rs:1106-1123 | subsidies over any number of heights stay below twice the first interval's |
| `Subsidy.RemainingStep` | src/blockchain.rs:1115-1123 | each height's subsidy is covered by what remained, across halvings too |
| `Subsidy.EpochSubsidy` | src/blockchain.rs:1115-1123 | epoch k pays 50 coins halved k times, and from the 64th on nothing |
| `Supply.SupplyIsBounded` | src/blockchain.rs:1106-1123 | after any run on schedule, batches included, the total is at most what was minted, on the 210,000-block schedule at most the money range |
| `Recovery.PendingUtxoState` | src/block_execution.rs:195-226 | the coins are classified by the values before and after, both at once included |
| `Recovery.Stores.Commit` | src/execution_store.rs:694-713 | one durable write, refused or made, unless the process dies first |
| `Recovery.Stores.CommitAll` | src/block_execution.rs:246-297 | writes in order until one is refused or the process dies |
| `Recovery.Stores.Recover` | src/block_execution.rs:233-298 | the attempt decided by kind, tip and coins, interrupted after any number of writes |
| `Recovery.RecoversExactlyWhen` | src/block_execution.rs:246-297 | recovery goes ahead on exactly the recoverable states; otherwise nothing is written |
| `Recovery.AttemptIsSafe` | src/block_execution.rs:246-297 | any prefix of the writes leaves the end state, or a recoverable one with the same end |
| `Recovery.RecoveryAlwaysLands` | src/block_execution.rs:228-298 | however often recovery is interrupted, one complete attempt ends in the one demanded state |
| `Recovery.TargetIsConsistent` | src/block_execution.rs:228-298 | that state is the whole transition undone, or kept when the connected child was already the tip; other undo rows stay |
| `Recovery.UndoPathsDiffer` | src/utxo.rs:1171-1206 | the overlay refuses re-created keys, the durable store never does, and both lead back |
| `Recovery.RecreatedCoinBlocksOverlay` | src/block_execution.rs:2134-2148 | the difference at one input: a coin spent and created anew, which the overlay refuses to undo and the durable store undoes |
| `Scripts.ExecutePacket` | src/blockchain.rs:155-182 | a packet reports its least failing job |
| `Scripts.DeferredScriptBatch.Submit` | src/blockchain.rs:221-252 | checks are packed sixteen to a packet, none lost or reordered |
| `Scripts.DeferredScriptBatch.Finish` | src/blockchain.rs:261-269 | verdicts arriving in any order give the least failure |
| `Scripts.DrainScriptBatches` | src/block_execution.rs:1424-1448 | the least failure over all batches and the serial checks |
| `Scripts.LeastIsUnique` | src/block_execution.rs:1424-1448 | differently keyed checks have one least failure, however they were scheduled |
| `Versions.DeriveDelta` | src/block_execution.rs:812-836 | what a block's raw transactions create and spend |
| `Versions.RawIsCreated` | src/block_execution.rs:814-836 | taking the first transaction for the coinbase is right for every well-formed block |
| `Versions.MergeDelta` | src/block_execution.rs:846-856 | one block's changes extend the table without changing earlier answers |
| `Versions.BuildVersions` | src/block_execution.rs:844-857 | the table answers every block as its predecessors leave the coins |
| `Versions.BatchVersionView.Lookup` | src/block_execution.rs:1468-1481 | the latest version an earlier block wrote |
| `Versions.BatchVersionView.Fetch` | src/block_execution.rs:1484-1491 | that version, or the batch overlay |
| `Delta.PreparedDelta.Spend` | src/block_execution.rs:1607-1611 | a key counts as spent from the base the first time it is touched |
| `Delta.PreparedDelta.SpendAll` | src/block_execution.rs:1668-1673 | overwritten coins are recorded as spent |
| `Delta.PreparedDelta.Record` | src/block_execution.rs:1613-1620 | recording a transaction moves the seen coins as applying it would |
| `Delta.NetChangesApply` | src/block_execution.rs:1625-1642 | the net effect of a delta, applied to the start, gives what the block leaves |
| `Delta.Fetch` | src/block_execution.rs:1682-1689 | the block's own record first, then the state it starts from |
| `Delta.FetchMany` | src/block_execution.rs:1691-1719 | many keys in order, unknown ones filled in place afterwards |
| `Delta.FindCollisions` | src/block_execution.rs:2227-2246 | collisions seen through the prepare view |
| `Delta.PrepareBip30` | src/block_execution.rs:1229-1251 | the exception on a prepare view removes what the applying path removes |
| `Delta.Overwritten` | src/block_execution.rs:1244-1249 | the overwritten coins, read through the view |
| `Delta.CheckThrough` | src/blockchain.rs:803-824 | checking through the view is checking against the coins it shows |
| `Delta.PrepareNext` | src/blockchain.rs:802-855 | one transaction prepared as sequential execution would run it |
| `Delta.PrepareBlock` | src/blockchain.rs:778-882 | preparing without writing gives the result and the errors of sequential preparation |
| `Batch.ConnectedIsSettled` | src/block_execution.rs:791-857 | what a connected block leaves can be read off its raw transactions, overwritten coins included |
| `Batch.BatchSeesSequential` | src/block_execution.rs:1456-1481 | every block sees exactly the coins its predecessors leave |
| `Batch.ScriptFailureIsLeast` | src/blockchain.rs:884-909 | the least failing check of a block is the failure sequential execution reports |
| `Batch.BatchVerdict` | src/block_execution.rs:963-1006 | whatever was prepared when, the reported error is the sequential one, and none exactly on success |
| `BatchDriver.ClaimsCover` | src/block_execution.rs:806-841 | when claims run out, every block was covered |
| `BatchDriver.DeriveAll` | src/block_execution.rs:791-843 | phase one fills every slot once, in any order |
| `BatchDriver.PrepareAt` | src/block_execution.rs:894-913 | one block prepared against the versions before it |
| `BatchDriver.HandScripts` | src/block_execution.rs:917-932 | exactly the prepared blocks' checks are with the workers |
| `BatchDriver.PrepareAll` | src/block_execution.rs:861-951 | phase two fills every slot once, whichever worker takes which block |
| `BatchCommit.FoldSpent` | src/chain_store.rs:2418-2422 | a spent key was created in the batch or is spent from the base once |
| `BatchCommit.FoldCreated` | src/chain_store.rs:2423-2427 | created keys never collide in a chained batch |
| `BatchCommit.FoldTransitions` | src/chain_store.rs:2415-2428 | folding chained net changes never fails and leads from the first coins to the last |
| `BatchCommit.CommitConnectBatch` | src/chain_store.rs:2408-2473 | coins, undo rows and tip of all blocks, or nothing |
| `BatchCommit.TransitionLeads` | src/block_execution.rs:1035-1056 | a connecting block's commit record leads from its predecessors' coins to its own, with its undo records |
| `BatchCommit.FinishSlots` | src/block_execution.rs:1008-1067 | the commit records in block order chain from the base to the sequential result |
| `BatchConnect.DrainAll` | src/block_execution.rs:1072-1091 | the least failure over the workers' batches |
| `BatchConnect.FirstFailed` | src/block_execution.rs:966-976 | the first slot that failed |
| `BatchConnect.ValidateBatch` | src/block_execution.rs:791-1006 | slots and verdict of the parallel pipeline equal sequential connection |
| `BatchConnect.ConnectBatch` | src/block_execution.rs:666-1096 | for any schedule and cache: the store `BatchConnected` gives, which is that of connecting the blocks one at a time; otherwise the first error that would meet, and nothing moves |
| `BatchFold.BatchIsFold` | src/block_execution.rs:666-1096 | a batch goes through exactly when its blocks do one at a time and leaves the same store; the errors differ exactly when a repeated hash stops the single connects before a rejected block, never for new blocks |
| `BatchFold.EachIsCommitted` | src/chain_store.rs:2408-2473 | as far as sequential connection gets, one at a time gives what committing at once gives |
| `BatchFold.PrevalidationIsEarly` | src/block_execution.rs:1133-1225 | a structure checked beforehand connects alike |
| `Merkle.NextLevel` | src/blockchain.rs:1010-1025 | one level of parents and whether a full pair had equal halves |
| `Merkle.TransactionMerkleRoot` | src/blockchain.rs:1000-1028 | the level loop computes root and mutation flag |
| `Merkle.RootDeterminesList` | src/blockchain.rs:1000-1028 | among lists of one length the root determines the list |
| `Merkle.LongerIsMutated` | src/blockchain.rs:1008-1016 | of two lists with one root the longer is reported mutated |
| `Merkle.RootIsUnambiguous` | src/blockchain.rs:985-991 | unmutated lists of any lengths with one root are equal |
| `Merkle.RepeatedTailKeepsRoot` | src/blockchain.rs:1011-1016 | the ambiguity is real: a repeated tail keeps the root and is reported |
| `Merkle.HonestIsUnmutated` | src/blockchain.rs:1013-1017 | a list of distinct transactions is never reported mutated |
| `AsmapCode.FieldRange` | src/asmap.rs:386-412 | a decoded value lies within its field's capacity and the reader moves forward |
| `AsmapCode.OperandCapacities` | src/asmap.rs:386-412 | the exact largest ASN, match and jump operands |
| `AsmapCode.FieldReads` | src/asmap.rs:386-412 | what a field stands for: selector bits skip sizes, and the literal counts from there |
| `AsmapCode.FetchReads` | src/asmap.rs:414-422 | how instructions are told apart by their first bits, and which ladder each operand is in |
| `AsmapCode.ByteHoldsBits` | src/asmap.rs:159-161 | each byte holds eight bits of the program, least significant first |
| `Asmap.BitReader.Read` | src/asmap.rs:358-376 | one bit, or the end |
| `Asmap.BitReader.DecodeBits` | src/asmap.rs:386-412 | the variable-length field at the position, or invalid |
| `Asmap.DecodeInstruction` | src/asmap.rs:414-422 | the instruction at the position and where the next begins |
| `Asmap.ExecuteNext` | src/asmap.rs:178-228 | one instruction: stop with an answer or continue |
| `Asmap.Interpret` | src/asmap.rs:167-231 | the lookup loop answers as running the program does |
| `Asmap.CheckNext` | src/asmap.rs:253-352 | one validation step: accept, reject or continue |
| `Asmap.PaddingIsClean` | src/asmap.rs:274-287 | fewer than eight zero bits may follow |
| `Asmap.SanityCheck` | src/asmap.rs:239-355 | the validator accepts exactly the checked programs |
| `Asmap.FromBytes` | src/asmap.rs:96-108 | empty, oversize and invalid files are refused, all others kept as they are |
| `AsmapCheck.StepKeepsNesting` | src/asmap.rs:246-352 | pending jumps stay nested: remaining bits strictly decrease up the stack |
| `AsmapCheck.StackNeverExceedsAddressBits` | src/asmap.rs:239-355 | after any number of steps at most 128 jumps are pending |
| `AsmapCheck.AcceptedProgramsRunCleanly` | src/asmap.rs:167-231 | an accepted program ends on every address in a return or a diverging match, never on malformed data |
| `AsmapShape.RunIsEval` | src/asmap.rs:167-231 | running a laid-out program evaluates it as a tree of answers, choices, guards and fallbacks |
| `AsmapShape.AnswersByTrace` | src/asmap.rs:167-231 | a diverging lookup answers the last DEFAULT executed, or what it started with; a returning one the RETURN it ended at |
| `AsmapShape.DefaultDecides` | src/asmap.rs:219-225 | after a DEFAULT nothing before it matters, and a MATCH that fails next answers it |
| `AsmapShape.AcceptedExactlyWhen` | src/asmap.rs:239-355 | a program is accepted exactly when it is the layout of legal code for 128 bits, defaults included, and at most seven clear bits |
| `AsmapShape.AcceptedMeans` | src/asmap.rs:167-231 | every lookup in an accepted program evaluates its code |
| `AsmapTrie.InsertLookup` | src/asmap.rs:543-557 | an inserted prefix answers exactly the addresses under it |
| `AsmapTrie.BuildAnswersTable` | src/asmap.rs:634-644 | the trie answers with the last listed entry covering an address |
| `AsmapTrie.SimplifyCorrect` | src/asmap.rs:559-569 | merging equal leaves changes no answer |
| `AsmapTrie.KnownLeafSurvives` | src/asmap.rs:559-569 | a simplified trie that is not unknown has a leaf with an ASN |
| `AsmapEmit.WrappedExact` | src/asmap.rs:571-587 | a field keeps a value exactly when it is below the capacity |
| `AsmapEmit.DecodeEncoded` | src/asmap.rs:571-587 | decoding an encoded field gives what the field could keep, at its end |
| `AsmapEmit.FetchEmitted` | src/asmap.rs:589-631 | an emitted instruction is fetched back with its operand |
| `AsmapEmit.RunEmitted` | src/asmap.rs:589-631 | running emitted code answers as the trie it came from |
| `AsmapEmit.CheckEmitted` | src/asmap.rs:589-631 | the validator passes through emitted code and resumes at the pending jump |
| `AsmapEmit.ShortCodeFits` | src/asmap.rs:617-629 | code no longer than the largest jump has only jumps that fit |
| `Asmap.EncodeBits` | src/asmap.rs:571-587 | appends the encoded field |
| `Asmap.FollowPattern` | src/asmap.rs:590-602 | the run of single-sided branches below a node |
| `Asmap.EmitMatches` | src/asmap.rs:603-610 | that run as match instructions of at most eight bits |
| `Asmap.EmitNode` | src/asmap.rs:589-631 | the code of a trie |
| `Asmap.PackBits` | src/asmap.rs:648-654 | bits packed into bytes, zero-padded |
| `Asmap.Encode` | src/asmap.rs:634-655 | a table encodes exactly when some address is known |
| `Asmap.KnownIsEmittable` | src/asmap.rs:634-655 | a known table leaves a trie the emitter accepts |
| `Asmap.EncodedTableIsSane` | src/asmap.rs:634-655 | every encoded table whose jumps fit their operands passes the validator |
| `Asmap.EncodedTableAnswers` | src/asmap.rs:634-655 | on every address the encoded table answers with the field-limited ASN of the last covering entry |
| `Asmap.EncoderPreservesMeaning` | src/asmap.rs:634-655 | the encoded table answers as the table exactly when every answered ASN is encodable |
| `Asmap.EncodedFileIsFaithful` | src/asmap.rs:96-108 | every encoded file within the 16 MiB limit is accepted, and answers as the table exactly when every answered ASN is encodable |
| `CoreCodec.ByteReader.ReadExact` | src/core_snapshot.rs:1185-1189 | bytes from the front, or the end of the stream |
| `CoreCodec.ReadCoreVarint` | src/core_snapshot.rs:1168-1183 | the value and rest of the stream, with the shift's dropped bits and the one checked increment |
| `CoreCodec.WriteCoreVarint` | src/core_snapshot.rs:1214-1226 | the encoding of a 64-bit value |
| `CoreCodec.VarintRoundTrip` | src/core_snapshot.rs:1168-1226 | every 64-bit value is read back |
| `CoreCodec.VarintVectors` | src/core_snapshot.rs:1214-1226 | encodings across the first two changes of length |
| `CoreCodec.TerminatedIsVarint` | src/core_snapshot.rs:1214-1226 | every terminated string is the encoding of its unbounded value |
| `CoreCodec.VarintConverse` | src/core_snapshot.rs:1168-1183 | re-encoding what was read gives the bytes back exactly when they stand for a 64-bit value |
| `CoreCodec.VarintWraps` | src/core_snapshot.rs:1172-1177 | the encoding of 2^64 is read as zero |
| `CoreCodec.ReadCompactSizeFrom` | src/core_snapshot.rs:1130-1166 | the canonical size and rest of the stream |
| `CoreCodec.CompactSizeRoundTrip` | src/core_snapshot.rs:1230-1243 | sizes up to the limit are read back at their stated length, larger ones refused |
| `CoreCodec.CompactSizeIsCanonical` | src/core_snapshot.rs:1130-1166 | only the one encoding of a value is accepted |
| `CoreAmount.CompressAmount` | src/core_snapshot.rs:1194-1210 | wrapping 64-bit arithmetic gives what 64 bits keep of the code |
| `CoreAmount.DecompressAmount` | src/core_snapshot.rs:1287-1306 | checked arithmetic fails exactly when the amount does not fit |
| `CoreAmount.DecompressCompress` | src/core_snapshot.rs:1194-1306 | decompression undoes compression for every amount |
| `CoreAmount.CompressDecompress` | src/core_snapshot.rs:1194-1306 | compression undoes decompression for every code |
| `CoreAmount.CompressFits` | src/core_snapshot.rs:1194-1210 | money-range amounts never overflow |
| `CoreAmount.CompressExactlyWhen` | src/core_snapshot.rs:1194-1210 | compression is undone exactly when the code fits, which is exactly when the amount stands for some 64-bit code |
| `CoreAmount.CompressOverflows` | src/core_snapshot.rs:1203-1209 | the largest amount overflows and is not returned; an amount over a ninth of the range need not overflow |
| `CoreScript.DecompressScriptFrom` | src/core_snapshot.rs:1308-1366 | the script and rest of the stream, or the error |
| `CoreScript.ScriptRoundTrip` | src/core_snapshot.rs:1249-1366 | a script comes back from its compressed form exactly when it is at most 10,000 bytes |
| `CoreScript.ScriptConverse` | src/core_snapshot.rs:1249-1366 | the bytes read are the compressed form exactly when the size is 64-bit and no template was left unused |
| `CoreScript.RawTemplateIsAccepted` | src/core_snapshot.rs:1350-1365 | a template script in raw form is accepted and compresses to something else |
| `Snapshot.ReadCoinFrom` | src/core_snapshot.rs:530-551 | one coin of the file with every check, error for error |
| `Snapshot.ReadCoinsFrom` | src/core_snapshot.rs:527-552 | a group's coins in order |
| `SnapshotIndex.FindDuplicate` | src/core_snapshot.rs:553-556 | a repeated output index is found |
| `SnapshotIndex.ScanGroupFrom` | src/core_snapshot.rs:507-558 | one group with ordering, count and uniqueness checks |
| `SnapshotIndex.ScanIsFaithful` | src/core_snapshot.rs:147-157 | every group is read back at the offset that was recorded for it |
| `SnapshotIndex.ScanSnapshot` | src/core_snapshot.rs:143-161 | all groups and offsets of the file, which must end with the last |
| `SnapshotWrite.ReadWrittenCoin` | src/core_snapshot.rs:569-607 | a coin written as index, code, amount and script is read back, itself and at its length, exactly when it is within the limits |
| `SnapshotWrite.ScanWrittenGroup` | src/core_snapshot.rs:507-558 | a written group is scanned back where enough coins remain and its id comes next |
| `SnapshotWrite.ScanWritten` | src/core_snapshot.rs:143-161 | a written file is scanned into its groups, each where it was written |
| `SnapshotWrite.ScannedFits` | src/core_snapshot.rs:143-161 | whatever is scanned is within the limits, its ids strictly increasing as numbers, and all the coins announced |
| `SnapshotWrite.LexIsNumeric` | src/core_snapshot.rs:515-519 | ids are ordered as the numbers they stand for |
| `SnapshotWrite.KeyBytesWritten` | src/core_snapshot.rs:524-537 | the outpoint bytes of a group are what it is written with besides the bodies of its coins |
| `BitRank.BuildWordRanks` | src/core_snapshot.rs:858-867 | each word's rank is the number of ones before it |
| `BitRank.RankOfPosition` | src/core_snapshot.rs:678-681 | word rank plus masked popcount is the number of ones before the position |
| `BitRank.Select` | src/core_snapshot.rs:667-685 | every rank belongs to a set position |
| `BbHash.MarkPositions` | src/core_snapshot.rs:625-637 | the two bit vectors say whether a position was hit, and whether more than once |
| `BbHash.ClearCollisions` | src/core_snapshot.rs:638-640 | collided positions are cleared in place |
| `BbHash.BuildLevel` | src/core_snapshot.rs:617-661 | a level holds exactly the positions one remaining key hashes to, the other keys remain |
| `BbHash.BbHashSlot` | src/core_snapshot.rs:667-685 | the slot is the rank of the first held position |
| `BbHashBuild.SeedsAre` | src/core_snapshot.rs:623-624 | each level's seed is the one before plus the same 64-bit constant, wrapping |
| `BbHashBuild.LevelAdvances` | src/core_snapshot.rs:613-663 | one more level keeps all slots and fills the next ranks with the keys it holds |
| `BbHashBuild.BuildBbHash` | src/core_snapshot.rs:609-665 | if it finishes, slots are a bijection from the keys onto 0..n-1; if not, the seeded levels ran into the stated limit |
| `BbHashBuild.SlotInRange` | src/core_snapshot.rs:667-685 | whatever key lands in the hash lands below n |
| `SnapshotGet.FillOffsets` | src/core_snapshot.rs:164-175 | with a perfect hash no slot is met twice or left empty |
| `SnapshotGet.CountKeyBytes` | src/core_snapshot.rs:524-537 | the bytes a group's outpoints take |
| `SnapshotGet.BuildIndex` | src/core_snapshot.rs:143-175 | refused only by the scan or the hash construction; otherwise an index of exactly the file's groups |
| `SnapshotGet.Get` | src/core_snapshot.rs:258-306 | a lookup by slot, offset and re-read group |
| `SnapshotGet.LookupAgreesWithScan` | src/core_snapshot.rs:258-306 | a lookup answers exactly what a linear scan answers, for members and all others |
| `SnapshotGet.MembersAreFound` | src/core_snapshot.rs:258-306 | every coin of the file is found with its own data |
| `SnapshotGet.OthersAreNot` | src/core_snapshot.rs:258-306 | no other outpoint gets a coin |
| `SnapshotWrite.WrittenCoinIsFound` | src/core_snapshot.rs:258-306 | an index of a written file finds every coin that was written, with the median time before its block |
| `SidecarIo.WriteIndex` | src/core_snapshot.rs:699-751 | the printed file, levels and words in order |
| `SidecarIo.ReadLevel` | src/core_snapshot.rs:814-831 | one level with its length checks, ranks recomputed |
| `SidecarIo.ReadLevels` | src/core_snapshot.rs:811-835 | all levels with running rank bases |
| `SidecarIo.ReadIndex` | src/core_snapshot.rs:754-856 | a file is accepted exactly when every check passes and nothing is left over |
| `SidecarFile.SidecarRoundTrip` | src/core_snapshot.rs:699-856 | a written file is read back with identical levels, ranks and offsets |
| `SidecarFile.SidecarConverse` | src/core_snapshot.rs:754-856 | whatever is accepted is the printed form of what is returned |
| `SidecarFile.ScanCounts` | src/core_snapshot.rs:143-161 | a scan accounts for every coin, and its outpoint bytes lie between coin count and file size |
| `SidecarFile.BuiltIndexIsReadBack` | src/core_snapshot.rs:771-846 | the level, rank-sum, bit-length and count checks never refuse what the builder wrote |
| `IndexCodec.TransactionLocationRoundTrip` | src/auxiliary_index.rs:613-630 | decoding accepts exactly the encodings |
| `IndexCodec.SpentLocationRoundTrip` | src/auxiliary_index.rs:632-651 | decoding accepts exactly the encodings |
| `IndexCodec.FilterRecordRoundTrip` | src/auxiliary_index.rs:653-688 | decoding accepts exactly the encodings |
| `AuxIndex.ListTransactions` | src/auxiliary_index.rs:501-518 | each transaction's location row and the value it replaces |
| `AuxIndex.ListInputs` | src/auxiliary_index.rs:523-547 | one transaction's spender rows, or the first double spend |
| `AuxIndex.ListSpends` | src/auxiliary_index.rs:519-550 | a block's spender rows, or the first double spend |
| `AuxIndex.BuildRecords` | src/auxiliary_index.rs:493-594 | the rows of a block for each kind of index |
| `AuxIndex.EntriesRemember` | src/auxiliary_index.rs:493-594 | every row remembers the value it replaces |
| `AuxIndex.RestoreInvertsWrite` | src/auxiliary_index.rs:348-354 | putting previous values back gives the table before, however the rows were ordered |
| `AuxRuns.AuxiliaryIndex.ConnectBatch` | src/auxiliary_index.rs:259-320 | a consecutive batch, all of it or nothing |
| `AuxRuns.AuxiliaryIndex.DisconnectTip` | src/auxiliary_index.rs:323-364 | the tip's rows are put back and the tip moves to its parent, or nothing changes |
| `AuxRuns.AuxiliaryIndex.PruneUndosBefore` | src/auxiliary_index.rs:367-388 | exactly the older undo rows go, and are counted |
| `AuxRuns.WriteAll` | src/auxiliary_index.rs:295-298 | rows written in order |
| `AuxRuns.RestoreAll` | src/auxiliary_index.rs:348-354 | previous values put back last first |
| `AuxRuns.ExtendInverts` | src/auxiliary_index.rs:284-312 | a block's undo row leads back to the table and tip before it |
| `AuxRuns.DisconnectExactlyWhenKept` | src/auxiliary_index.rs:323-364 | the tip disconnects exactly when its undo row was not pruned |
| `AuxRuns.PruneStaysSound` | src/auxiliary_index.rs:367-388 | pruning keeps the rows of exactly the heights from the bound to the tip |
| `AuxRuns.IndexDependsOnlyOnTheChain` | src/auxiliary_index.rs:259-388 | after any run the table is a fresh build of the current chain, undo rows an interval ending at the tip |
| `AuxLookup.TransactionLookup` | src/auxiliary_index.rs:391-399 | a transaction index answers with a place of the transaction in the last block holding it |
| `AuxLookup.SpenderLookup` | src/auxiliary_index.rs:402-410 | a spent-output index answers with the outpoint's one spender |
| `AuxLookup.FiltersChainFromGenesis` | src/auxiliary_index.rs:551-592 | every height holds its filter, its hash, and the header chained from genesis |
| `AuxVerdict.TransactionsBuildExactlyWhen` | src/auxiliary_index.rs:284-292 | a transaction index accepts exactly the chains whose blocks follow one another and whose positions fit 32 bits |
| `AuxVerdict.SpendsBuildExactlyWhen` | src/auxiliary_index.rs:519-550 | a spent-output index accepts a chain exactly when its blocks follow one another and no outpoint is spent twice, coinbases aside |
| `AuxVerdict.SpendIsRecorded` | src/auxiliary_index.rs:531-546 | where an outpoint is recorded as spent: the transaction, input and block that spend it |
| `AuxVerdict.FiltersBuildExactlyWhen` | src/auxiliary_index.rs:551-592 | a filter index accepts exactly the chains whose blocks follow one another from genesis and have a filter each |
| `AuxVerdict.HeightByHash` | src/auxiliary_index.rs:582-591 | the height of a block is found by its hash, unless a later block has it too |
| `IndexCodec.Be32IsBigEndian` | src/auxiliary_index.rs:578 | heights are keyed most significant byte first |
| `Archive.DecodeRecords` | src/archive.rs:230-251 | the blocks of a record stream, or which check failed |
| `Archive.ParseFrames` | src/archive.rs:161-169 | decoding encoded blocks returns them |
| `Archive.FramesOfParse` | src/archive.rs:236-247 | whatever parses is the encoding of what it parses to |
| `Archive.BoundedPrefix` | src/archive.rs:46-68 | the longest prefix within the record ceiling; an oversize block met on the way, and only that, is an error |
| `Archive.CheckLimits` | src/archive.rs:120-140 | which limit an archive breaks, if any: its count first, then whichever size limit is met first |
| `Archive.EncodeRecords` | src/archive.rs:116-169 | an archive within its limits parses back to its blocks; otherwise the limit it breaks is reported |
| `ArchiveStream.RecordStreamVerifier.Feed` | src/archive.rs:480-517 | a chunk moves the verifier as its bytes one by one would |
| `ArchiveStream.RecordStreamVerifier.TakeBlockBytes` | src/archive.rs:482-493 | block bytes are skipped in one stride |
| `ArchiveStream.RecordStreamVerifier.TakeLengthBytes` | src/archive.rs:495-513 | length bytes are collected in place across chunks |
| `ArchiveStream.RecordStreamVerifier.Finish` | src/archive.rs:519-527 | an incomplete record or a wrong count is refused |
| `ArchiveStream.ScanConcat` | src/archive.rs:480-517 | cutting a stream in two does not matter |
| `ArchiveStream.ScanAgrees` | src/archive.rs:471-527 | scanning and parsing report the same, error for error |
| `ArchiveStream.VerifyStream` | src/archive.rs:432-469 | within the record limit any chunking gives the whole-buffer verdict; over it, an error in the chunks before the one that crosses it, or the limit |
| `Admission.RefillIsIdeal` | src/admission_resources.rs:121-135 | rounding and saturation never lose or invent anything |
| `Admission.Charge` | src/admission_resources.rs:121-147 | what is charged and what is left add up to the ideal level, and the charge is full exactly when it fits |
| `Admission.PollingChangesNothing` | src/admission_resources.rs:114-148 | two runs that differ only in polls, inserted or dropped anywhere, charge every working request the same and polls nothing |
| `Admission.RefillsAdd` | src/admission_resources.rs:121-137 | two refills in a row are one of the joint gain |
| `Admission.PolledBucket` | src/admission_resources.rs:114-148 | a run leaves the bucket its working requests leave, refilled since the last of them |
| `Admission.WindowBound` | src/admission_resources.rs:114-148 | work charged in any window is at most a burst plus the rate times its length |
| `Admission.AdmissionBudget.RefillNow` | src/admission_resources.rs:121-135 | the in-place refill is the specified one |
| `Admission.AdmissionBudget.ChargeWork` | src/admission_resources.rs:114-148 | level, counters and outcome of one charge; leases untouched |
| `Admission.AdmissionBudget.ReserveCandidate` | src/admission_resources.rs:153-181 | granted exactly when the live leases leave room, and then counted, with the peak |
| `Admission.AdmissionBudget.Release` | src/admission_resources.rs:201-210 | dropping a lease releases exactly its bytes |

## Left out

- The header chain, difficulty, median times and deployment selection: a candidate's height, parent median time, local time and deployments are inputs.
- Script verification, signature-operation counting, signet solutions, witness commitments, BIP 34 height matching and the block weight: arbitrary functions of the block or transaction with an error code.
- Hot and cold tiers, `last_touched` ageing, spent-age statistics, snapshot export and replacement, and timing breakdowns: no effect on the coin set.
- Script batches carried over from an earlier call (`script_carry`), worker panics and queue back-pressure: packets are run once each, by anyone.
- The validation journal and the option not to retain undo records: the store always retains them.
- Assumed snapshot bases, validation targets and the tip checks against the header chain in `src/execution_store.rs` and `src/block_execution.rs`.
- `linked_ipv4`, `lookup_bits` and the embedded map in `src/asmap.rs`: the 128 address bits are an input. The encoder's trie is a value rather than boxes updated in place, so sharing of nodes is not modelled.
- File access, temporary files, renames, digests, compression, piece hashes and manifests of archives, snapshots and sidecars; the record digest and record length checks of archives.
- The snapshot metadata parser, network and anchor checks, the importing `CoreCoinReader` and the UTXO-set hash: easy beside the group parser modelled here.
- Opening an optional index and its metadata rows.
- `src/api.rs`, `src/block_template.rs`, `src/block_assembly.rs` and the other files not named in the table.
- Connect.Bip30: reports the set of colliding outpoints where the source reports the least of them.
- Reorg.ChainStore.ApplyBip30: as Connect.Bip30.
- Delta.PrepareBip30: as Connect.Bip30.
- Reorg.ChainStore.ApplyChanges: names a missing or duplicate key, not which of several, since the changes are sets here.
- Overlay.UtxoOverlay.ApplyFreshFromPrevouts: the caller's prevouts are taken to be the coins of the view, as the source asks.
- Overlay.UtxoOverlay.UndoMutation: names a present coin, not which of several, since an undo record is a map here.
- BlockApply.Rollback: as Overlay.UtxoOverlay.UndoMutation.
- BlockApply.Abandon: as Overlay.UtxoOverlay.UndoMutation.
- Reorg.ChainStore.DisconnectTip: as Overlay.UtxoOverlay.UndoMutation.
- Recovery.Stores.Commit: the key of a coin that blocks an undo is not reported.
- Recovery.Stores.Recover: as Recovery.Stores.Commit; the writes are listed before the first is made, which is when the source decides them.
- Asmap.EncoderPreservesMeaning: says nothing of tables whose left subtrees need over two gigabits, which no jump operand can express.
- SidecarIo.ReadIndex: one refusal for all of the reader's error kinds.
- SidecarIo.ReadLevels: as SidecarIo.ReadIndex.
- SidecarIo.ReadLevel: as SidecarIo.ReadIndex.
- CoreAmount.CompressAmount: models the wrapping arithmetic of an optimised build; a debug build stops where the code does not fit.
- AuxIndex.BuildRecords: a filter is an arbitrary function of the block and the scripts it spends; the row order of the unstable sort is an arbitrary permutation.
- AuxLookup.TransactionLookup: when ids repeat within one block, does not say which of the places is kept, which the unstable sort leaves open.
- Merkle.RootIsUnambiguous: a transaction id is never the hash of a pair, which the node's transaction parsing, not this code, has to ensure.
- BlockApply.ApplyBlock: one local clock value and the deployments are part of the candidate; the store behind the overlay does not fail on its own.
