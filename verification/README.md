# A verified model of fabric-peer-ext's storage cores

The peer extensions keep private data, blocks and endorsement results outside the peer's own files. This project
models the parts of them whose correctness spans several operations, and proves what those operations keep together.

- **Private data store.** Per-block documents with data, expiry entries and an index of expiring blocks; a
  missing-data index in three groups; the steps Commit, purge, reconciliation of old blocks, conversion of
  ineligible entries and reopen. `PvtTypes`, `KeyEncoding` (with `Digits`), `Sorting`, `Assembler`, `StoreEntries`,
  `PvtStore`, `Reconcile`, `MissingInfo`, `Eligibility`; whole runs in `StoreRuns`, `MissingRuns` and
  `ConversionRuns`; what each step does to one entry in `StoreLaws`, and every answer against a history without
  documents, expiry entries or purges in `StoreHistory`; the store itself in `CdbStore`.
- **Cache in front of it.** `CombinedStore` relates the block cache to the documents over whole runs.
- **Transient store.** `TransientIndex` and `TransientStore`: three caches refine a set of records.
- **Reference counter.** `RefCounter`: a machine with one step per atomic operation and any number of threads.
- **Block store.** `BlockStore` (chain, checkpoint, crashes, iterator), `BlockCache` and `CdbBlockStore`.
- **Resource manager.** `InjectInvoker` and `ResourceManager`: rounds of creators reach a least fixed point.
- **Block visitor.** `BlockVisitor`: handler calls against a flattening of the block; `VisitorLaws` (with
  `Layout`): that flattening against the places of the block.
- **Composite keys.** `CompositeKey`: round trips and ranges, over code points and over UTF-8 bytes.

Databases are maps, write batches are atomic, the block-to-live policy is a fixed function that may not know a
collection, and protocol-buffer messages are values that decode or do not. A uint64 is a number below 2^64 with
explicit wrap-around. Namespace and collection names, and the transaction identifiers and uuids of the transient
store, are byte strings without a nil byte wherever keys are built from them. For namespaces and collections the
round-trip members of `KeyEncoding` say what happens otherwise; for transaction identifiers and uuids it is assumed.

Where the code does less than one would expect, the model follows the code. Each such place has an exact condition,
and where that does not name the failing input itself, a run or schedule from the empty state that shows it:

- reopening after block 0 (`PvtStore.ReopenInvisibleIff`);
- expiry entries overwritten within one reconciliation (`Reconcile.ReconcileCoveredIff`,
  `Witnesses.ClobberedDataOutlivesPurge`);
- a purge that deletes a document others still need (`StoreRuns.PurgeThenReconcileAcceptsIff`,
  `MissingRuns.PurgeKeepsListedIff`, `Witnesses.UnexpiredDataMayBeDropped`, `Witnesses.ExpiredEntryMayStay`);
- bits overwritten or repeated by a conversion (`Eligibility.MoveConservesIff`, `StoreRuns.ConvertDisjointIff`,
  `ConversionRuns.NextConversionKeepsBitsIff`, `Witnesses.ConversionMayLoseBits`,
  `Witnesses.ConversionMayRepeatBits`);
- a key written twice, or old data added, behind the cache (`CombinedStore.CombinedRefines`,
  `CombinedStore.AgreesAfterOldBlocksIff`, `CacheWitnesses.TwiceWrittenReadsDiffer`,
  `CacheWitnesses.ReconciledBlockReadsStale`);
- the minimum height with a record at height 0 (`TransientStore.Store.GetMinTransientBlkHt`);
- the close function called under a reference (`RefCounter.CalledAtZeroIff`,
  `RefCounter.CloseFunctionMayRunUnderAReference`);
- an iterator from 0 on an empty chain (`BlockStore.ReadsPastOnlyWhenEmpty`).

The table lists the main results first, then the runs that show the exceptions, then what they are built from, and
constructors and setters last.

## Model

| member | source | states |
|---|---|---|
| StoreHistory.ReadsTellHistory | pkg/pvtdatastorage/cdbpvtdatastore/store_impl.go:359-408 | in every reachable state a read fails exactly outside the committed blocks, and otherwise returns exactly what the block's commit and the reconciliations taken brought for it, last write winning, without what has expired and what the filter does not name |
| StoreHistory.ReportsTellHistory | pkg/pvtdatastorage/common/store.go:288-365 | in every reachable state both reports list exactly the unexpired missing bits left by commits, reconciliations and conversions that have fewer than maxBlock blocks with such bits after their own |
| StoreRuns.PurgeNeverSeen | pkg/pvtdatastorage/cdbpvtdatastore/store_impl.go:540-549 | in every state reachable by commits, purges, reconciliations, conversions and reopens (except while block 0 is the last block), a purge up to a committed block is invisible to every read |
| StoreRuns.PurgeAlwaysThorough | pkg/pvtdatastorage/cdbpvtdatastore/store_impl.go:657-747 | after every run whose reconciliations clobber no expiry entry, a purge leaves no data expiring at or before its block |
| StoreRuns.PurgeNeverReported | pkg/pvtdatastorage/cdbpvtdatastore/store_impl.go:553-568 | in every reachable state both missing-data reports succeed, and a purge up to a committed block changes neither |
| StoreRuns.RunKeepsIndex | pkg/pvtdatastorage/common/store.go:143-187 | after every run no group holds an empty bitmap, and every entry is of a committed block and of a collection the policy knows |
| StoreRuns.RunKeepsDisjoint | pkg/pvtdatastorage/common/store.go:447-513 | every run in which no conversion moves a deprioritized bit keeps prioritized and deprioritized bits disjoint |
| ConversionRuns.UniformRunsLoseNothing | pkg/pvtdatastorage/common/collelgproc.go:83-151 | after every run whose blocks miss no collection both eligibly and ineligibly, whatever was reconciled, listed, purged and converted, no state on the way of the next conversion has lost a missing bit or holds one twice |
| ConversionRuns.NextConversionKeepsBitsIff | pkg/pvtdatastorage/common/collelgproc.go:116-123 | after such a run and one more block no event can make a conversion lose a bit exactly when it is block 0 or whoever misses a collection eligibly, that another misses ineligibly, misses it ineligibly too |
| StoreRuns.ReadsWellGrouped | pkg/pvtdatastorage/cdbpvtdatastore/blockpvtdata_assembler.go:48-110 | in every reachable state a read lists each transaction once, in increasing order, and in it each namespace once |
| MissingRuns.PurgeAlwaysClears | pkg/pvtdatastorage/cdbpvtdatastore/store_impl.go:699-747 | after every run whose purges spare the documents of remaining entries, a purge leaves no entry of any group that expires at or before its block |
| Reconcile.ReconciliationConserves | pkg/pvtdatastorage/common/store.go:447-513 | disjoint groups stay disjoint, listed bits leave prioritized, and no bit is lost or invented exactly when every listed bit is missing and not reconciled |
| Reconcile.ReconcileCoveredIff | pkg/pvtdatastorage/cdbpvtdatastore/reconcile_missing_pvtdata.go:68-84 | a reconciliation keeps all expirable data covered exactly when it clobbers no expiry entry |
| MissingInfo.GetMissingPvtDataInfoForMostRecentBlocks | pkg/pvtdatastorage/common/store.go:288-365 | exactly the unexpired bits of the maxBlock greatest blocks in (0, last] that have an unexpired entry, or an error exactly when an unknown collection is met before the scan stops |
| Eligibility.CollElgProc.ProcessCollElgEvents | pkg/pvtdatastorage/common/collelgproc.go:83-151 | the disk ends as the converted index for every batch size and namespace order, events that do not decode passed over, and a rerun from every state it writes ends there too |
| Eligibility.CrashLosesNothing | pkg/pvtdatastorage/common/collelgproc.go:83-151 | while no named entry shadows prioritized bits, no missing bit is lost in any state the disk goes through |
| CombinedStore.CombinedRefines | pkg/pvtdatastorage/store_impl.go:105-127 | over every run of commits, purges and evictions both halves expect the same next block, and a read has the database's contents exactly when the cached visible entries write no key twice differently |
| CombinedStore.AgreesAfterOldBlocksIff | pkg/pvtdatastorage/store_impl.go:145-147 | after old blocks were committed a read agrees exactly when the block is not answered from the cache or nothing visible was added |
| KeyEncoding.EligibleScanExact | pkg/pvtdatastorage/common/kv_encoding.go:198-203 | the group range holds exactly the group's keys with 0 < block <= last, among all keys of the index |
| KeyEncoding.InelgScanExact | pkg/pvtdatastorage/common/kv_encoding.go:175-196 | the ineligible range holds exactly the collection's keys with 0 < block <= max |
| KeyEncoding.ReverseOrderReverses | pkg/pvtdatastorage/common/kv_encoding.go:210-214 | byte order is the reverse of numeric order over all of uint64 |
| Assembler.AssembledWellGrouped | pkg/pvtdatastorage/cdbpvtdatastore/blockpvtdata_assembler.go:48-110 | sorted keys give strictly increasing transactions, one entry each, and one write set per namespace |
| Assembler.FlattenAssembled | pkg/pvtdatastorage/cdbpvtdatastore/blockpvtdata_assembler.go:48-110 | flattening the regrouped block gives exactly the entries back |
| TransientStore.Store.Persist | pkg/transientstore/store.go:57-144 | adds exactly one record, the three caches agreeing |
| TransientStore.Store.PurgeByTxids | pkg/transientstore/store.go:191-294 | removes exactly the records of the listed transactions from all three caches |
| TransientStore.Store.PurgeBelowHeight | pkg/transientstore/store.go:296-340 | removes exactly the records below the height and never fails |
| TransientStore.Store.GetMinTransientBlkHt | pkg/transientstore/store.go:172-187 | the lowest height or the empty error, for every iteration order, exactly when no record is at height 0 |
| RefCounter.EveryInterleavingClosesOnce | pkg/common/reference/counter.go:38-79 | in every interleaving of single atomic operations the count is the number of references held, the close function runs at most once, and a quiet closed counter without references has run it |
| RefCounter.NoCloseIsLost | pkg/common/reference/counter.go:64-79 | once all calls have returned and all references are released, one Close was enough |
| RefCounter.CalledAtZeroIff | pkg/common/reference/counter.go:75-79 | every continuation calls the close function at count 0 exactly when no reference is held and no Increment is past its status check |
| BlockStore.ChainFromFirst | pkg/blkstorage/cdbblkstorage/cdb_blkstorage.go:67-204 | in every state reached by AddBlock steps, failures, crashes and reopens, all blocks from the first one checkpointed to the checkpoint are present and hash-linked, and checkpoint and blockchain info are those of the head |
| BlockStore.InfoDescribesHead | pkg/blkstorage/cdbblkstorage/cdb_blkstorage.go:172-204 | in every idle state reached the blockchain info holds the head's successor as height, the head's hash as current and the hash of the block before it as previous hash, and zero values for an empty chain |
| BlockStore.RunFinal | pkg/blkstorage/cdbblkstorage/cdb_blkstorage.go:120-204 | no block at or below a published checkpoint is written again, and checkpoints only advance |
| BlockStore.IteratorFollowsChain | pkg/blkstorage/cdbblkstorage/blocks_itr.go:24-73 | however adding and iterating interleave, the iterator yields the stored blocks of consecutive numbers once each and never reads past the checkpoint, on a nonempty chain or from a start above 0 |
| BlockStore.YieldedLinked | pkg/blkstorage/cdbblkstorage/blocks_itr.go:47-63 | whatever is added before and during an iteration, consecutive blocks from the chain's first one on are yielded hash-linked |
| BlockCache.Cache.GetBlockByNumber | pkg/blkstorage/cdbblkstorage/blockcache.go:133-150 | the store's answer, for every eviction and size, zero included |
| ResourceManager.Manager.Initialize | pkg/resource/resourcemgr.go:78-108 | no creator runs twice; unless a fatal error ends it those made are the least set closed under satisfiable dependencies, and it succeeds exactly when that is all of them; it fails for a wrong number of return values exactly when a called creator has one; clean creators cause no fatal error |
| InjectInvoker.ResolvesIff | pkg/common/injectinvoker/injectinvoker.go:71-115 | every type resolves exactly when it has no unsupported part in the way and every interface it needs is implemented; not found means that some interface is not |
| VisitorLaws.FlattenListsPlaces | pkg/common/blockvisitor/blockvisitor.go:286-674 | the flattened block lists every place of the block that holds something once, with what it holds there, in order: envelopes, then actions before private data, then reads before writes before collection hashes; only valid transactions, undecodable parts as errors |
| BlockVisitor.Visitor.Visit | pkg/common/blockvisitor/blockvisitor.go:286-316 | the events handed out go on with a prefix of the flattened block: all of it, or up to the first event whose error the error handler returned |
| CompositeKey.RoundTripIff | pkg/common/compositekey/compositekey.go:27-49 | splitting a created key gives its parts back exactly when none contains U+0000 |
| CompositeKey.ByteRangeExact | pkg/common/compositekey/compositekey.go:52-55 | the same range over the bytes a database compares |
| Witnesses.ConversionMayRepeatBits | pkg/pvtdatastorage/common/collelgproc.go:116-123 | a run after which a conversion prioritizes a deprioritized bit |
| Witnesses.ExpiredEntryMayStay | pkg/pvtdatastorage/cdbpvtdatastore/store_impl.go:735-737 | a run from an empty store after which a purge leaves an expired missing-data entry |
| Witnesses.UnexpiredDataMayBeDropped | pkg/pvtdatastorage/cdbpvtdatastore/store_impl.go:735-737 | a run from an empty store after which a purge makes reconciliation drop unexpired data |
| Witnesses.ClobberedDataOutlivesPurge | pkg/pvtdatastorage/cdbpvtdatastore/reconcile_missing_pvtdata.go:68-84 | a run from an empty store after which data survives the purge of its expiring block |
| Witnesses.ConversionMayLoseBits | pkg/pvtdatastorage/common/collelgproc.go:117-122 | a run from an empty store after which a conversion loses a missing bit |
| CacheWitnesses.TwiceWrittenReadsDiffer | pkg/pvtdatastorage/store_impl.go:116-127 | a commit that writes a key twice, read differently through the cache |
| CacheWitnesses.ReconciledBlockReadsStale | pkg/pvtdatastorage/store_impl.go:145-147 | a run after which a reconciled block is read without its new data |
| RefCounter.CloseFunctionMayRunUnderAReference | pkg/common/reference/counter.go:39-43 | a schedule in which the close function is called while a reference is held |
| PvtStore.PurgeInvisible | pkg/pvtdatastorage/cdbpvtdatastore/store_impl.go:359-383 | purging up to a committed block changes no read, for every block and filter |
| PvtStore.PurgeLeavesNothingExpired | pkg/pvtdatastorage/cdbpvtdatastore/store_impl.go:657-747 | when all expirable data is covered, no stored key expires at or before the purge block afterwards |
| PvtStore.SelectedNumerically | pkg/pvtdatastorage/cdbpvtdatastore/couchdb_conv.go:229-262 | the string comparison of the index query selects exactly the documents with an expiring block at or below the purge block |
| PvtStore.PurgeKeepsSound | pkg/pvtdatastorage/cdbpvtdatastore/store_impl.go:699-747 | a purge keeps documents sound and keeps all expirable data covered |
| PvtStore.PreparedSound | pkg/pvtdatastorage/common/helper.go:95-165 | the expiry entries made for a block list only what expires at their block, and all of it |
| PvtStore.CommitKeepsSound | pkg/pvtdatastorage/cdbpvtdatastore/store_impl.go:206-261 | a commit keeps the documents sound and covered |
| PvtStore.ReadAfterCommit | pkg/pvtdatastorage/cdbpvtdatastore/store_impl.go:206-261 | a block read right after its commit is its unexpired data, the last write of a key winning |
| PvtStore.ReopenInvisibleIff | pkg/pvtdatastorage/cdbpvtdatastore/store_impl.go:179-199 | reopening changes nothing exactly when block 0 is not the last committed block; in that case the store expects block 0 again |
| StoreHistory.IneligibleTellsHistory | pkg/pvtdatastorage/common/helper.go:58-93 | in every reachable state the ineligible group holds exactly the unexpired ineligible bits of that history |
| StoreHistory.RunAgrees | pkg/pvtdatastorage/cdbpvtdatastore/store_impl.go:206-261 | every run keeps documents and all three index groups agreed with that history on everything that has not expired, whatever was purged |
| StoreLaws.EntryIff | pkg/pvtdatastorage/common/helper.go:42-56 | a block has an entry exactly when a transaction of it writes that collection with that value |
| StoreLaws.MapOfLast | pkg/pvtdatastorage/cdbpvtdatastore/couchdb_conv.go:148-163 | a document keeps the last write of each key |
| StoreLaws.ReadShowsIff | pkg/pvtdatastorage/cdbpvtdatastore/store_impl.go:536-549 | an entry is shown exactly when it is stored, the last block is below its expiring block and the filter, if any, names its collection |
| StoreLaws.FilterRestricts | pkg/pvtdatastorage/common/helper.go:167-169 | a filtered read is the unfiltered one without the collections the filter does not name |
| StoreLaws.CommittedBitIff | pkg/pvtdatastorage/common/helper.go:58-93 | a commit sets exactly the bits of its missing collections, eligible ones as prioritized and the others as ineligible, and keeps all older bits |
| StoreLaws.CommittedDataIff | pkg/pvtdatastorage/cdbpvtdatastore/store_impl.go:206-261 | a commit stores exactly the last writes of its keys and changes no other block |
| StoreLaws.PurgeKeepsEntry | pkg/pvtdatastorage/cdbpvtdatastore/store_impl.go:719-729 | a purge keeps every entry of all three groups with its bitmap while its expiring block is above the purged one |
| StoreLaws.PurgeKeepsData | pkg/pvtdatastorage/cdbpvtdatastore/store_impl.go:699-747 | a purge keeps all data with its value while its expiring block is above the purged one |
| StoreLaws.PurgeNeverDropsEntry | pkg/pvtdatastorage/cdbpvtdatastore/store_impl.go:719-729 | the same of the index in every reachable state, ineligible entries included |
| StoreLaws.ReconciledBitIff | pkg/pvtdatastorage/common/store.go:447-513 | what a reconciliation does to every single bit of the three groups, by its namespace, collection, block and transaction |
| StoreLaws.ReconciliationClearsIff | pkg/pvtdatastorage/common/store.go:447-471 | with disjoint groups a bit that is not listed stays missing exactly when it was missing and its data was not stored |
| StoreLaws.ReconciledDataIff | pkg/pvtdatastorage/common/store.go:406-445 | documents gain exactly the offered data that never expires or whose expiry entry is stored, over what they held |
| StoreLaws.ConvertedBitIff | pkg/pvtdatastorage/common/collelgproc.go:83-151 | a conversion moves exactly the ineligible entries that a decodable event of their block or a later one names |
| StoreLaws.ReportedIff | pkg/pvtdatastorage/common/store.go:288-365 | a report lists exactly the bits of unexpired entries with fewer than maxBlock blocks that have one after their own |
| StoreLaws.ReportFailsIff | pkg/pvtdatastorage/common/store.go:318-334 | a report fails exactly when an entry of an unknown collection has fewer than maxBlock blocks with an unexpired entry after its own |
| StoreRuns.RunKeepsSound | pkg/pvtdatastorage/cdbpvtdatastore/store_impl.go:206-261 | every run of the store's operations keeps it sound |
| StoreRuns.CleanRunKeepsCovered | pkg/pvtdatastorage/cdbpvtdatastore/store_impl.go:206-261 | every run whose reconciliations clobber no expiry entry keeps all expirable data covered by an indexed expiry entry |
| ConversionRuns.RunKeepsApart | pkg/pvtdatastorage/common/collelgproc.go:116-123 | such runs never hold an ineligible and an eligible entry of the same key, so all their conversions are separate |
| StoreRuns.ConvertDisjointIff | pkg/pvtdatastorage/common/collelgproc.go:116-123 | a conversion keeps the eligible groups disjoint exactly when no bit it moves is deprioritized already |
| StoreRuns.PurgeDeletesOnlyExpiredMissing | pkg/pvtdatastorage/common/helper.go:181-213 | every missing-data entry a purge deletes has expired |
| MissingRuns.PurgeKeepsListedIff | pkg/pvtdatastorage/cdbpvtdatastore/store_impl.go:735-737 | remaining entries stay listed for their expiring blocks exactly when the purge deletes no document that lists one |
| MissingRuns.RunKeepsListed | pkg/pvtdatastorage/common/helper.go:143-156 | such runs keep every expirable missing-data entry listed in an indexed expiry entry |
| MissingRuns.PurgeClearsExpired | pkg/pvtdatastorage/common/helper.go:181-213 | a purge of a store in which every expirable entry is listed deletes all that have expired |
| StoreRuns.PurgeThenReconcileAcceptsIff | pkg/pvtdatastorage/cdbpvtdatastore/store_impl.go:735-737 | reconciled data is still accepted after a purge exactly when the purge did not empty its document |
| CdbStore.Store.Commit | pkg/pvtdatastorage/cdbpvtdatastore/store_impl.go:206-261 | commits exactly the prepared entries, or fails and changes nothing; the three errors in their order |
| CdbStore.Store.CommitEntries | pkg/pvtdatastorage/cdbpvtdatastore/store_impl.go:218-261 | writes the document, the last-block document and the missing-data batch as one step |
| CdbStore.Store.GetPvtDataByBlockNum | pkg/pvtdatastorage/cdbpvtdatastore/store_impl.go:359-408 | out of range, no document, or the visible entries regrouped in key order |
| CdbStore.ReadStored | pkg/pvtdatastorage/cdbpvtdatastore/store_impl.go:536-549 | skipping expired and filtered keys of the sorted document gives the read of the document |
| CdbStore.Store.PurgeExpiredData | pkg/pvtdatastorage/cdbpvtdatastore/store_impl.go:657-682 | the loops over documents and expiry entries purge every selected document and all three index groups |
| CdbStore.PrepareExpiredData | pkg/pvtdatastorage/cdbpvtdatastore/store_impl.go:684-697 | the documents to replace and the missing-data keys to delete |
| CdbStore.GetExpiredDataDoc | pkg/pvtdatastorage/cdbpvtdatastore/store_impl.go:699-747 | one document without its dead keys, its index keeping only later blocks, and the dead missing-data keys |
| CdbStore.Store.CommitPvtDataOfOldBlocks | pkg/pvtdatastorage/cdbpvtdatastore/reconcile_missing_pvtdata.go:27-66 | merges accepted data into the documents and rewrites the two eligible groups, or fails on an unknown collection and changes nothing |
| CdbStore.StageEntries | pkg/pvtdatastorage/common/store.go:406-445 | the loop over a block's entries stages data and expiry entries, failing exactly on an unknown collection |
| CdbStore.StageBlocks | pkg/pvtdatastorage/common/store.go:406-445 | the staged blocks do not depend on the order of the map |
| CdbStore.MergedIsReconciled | pkg/pvtdatastorage/cdbpvtdatastore/store_impl.go:594-610 | merging the staged blocks into the documents is the reconciliation |
| CdbStore.Store.Reopen | pkg/pvtdatastorage/cdbpvtdatastore/store_impl.go:179-199 | the state read back from the databases, or an error for a block number above the int64 range |
| StoreEntries.PrepareStoreEntries | pkg/pvtdatastorage/common/helper.go:23-40 | the block's data, expiry and missing entries, or none when the policy does not know a collection |
| StoreEntries.PrepareMissingDataEntries | pkg/pvtdatastorage/common/helper.go:58-93 | one bitmap per namespace, collection and block, split by eligibility |
| StoreEntries.MissingEntriesBits | pkg/pvtdatastorage/common/helper.go:58-93 | the bits set are exactly the missing transactions of that eligibility, and no bitmap is empty |
| StoreEntries.PrepareExpiryEntries | pkg/pvtdatastorage/common/helper.go:95-125 | present and missing keys grouped by expiring block, never-expiring ones left out |
| StoreEntries.AddMissingEntries | pkg/pvtdatastorage/common/helper.go:143-156 | adds the missing keys of one group to the expiry entries |
| Assembler.PrepareDataEntries | pkg/pvtdatastorage/common/helper.go:42-56 | one entry per collection written, in the order given |
| Assembler.TxAssembler.Add | pkg/pvtdatastorage/common/helper.go:239-253 | consecutive collections of one namespace share its write set |
| Assembler.TxAssembler.GetTxPvtdata | pkg/pvtdatastorage/common/helper.go:255-265 | everything added, under the transaction number |
| Assembler.BlockAssembler.AssembleEntry | pkg/pvtdatastorage/cdbpvtdatastore/blockpvtdata_assembler.go:77-110 | an entry joins the current transaction or starts the next one |
| Assembler.BlockAssembler.Finish | pkg/pvtdatastorage/cdbpvtdatastore/blockpvtdata_assembler.go:70-75 | the last transaction is closed as well |
| Assembler.AssembleBlock | pkg/pvtdatastorage/cachedpvtdatastore/store_impl.go:213-253 | the visible entries regrouped, the others skipped |
| Reconcile.ReflectReconciled | pkg/pvtdatastorage/common/store.go:447-471 | clearing reconciled bits with staged entries overlaying the stored ones |
| Reconcile.ReflectPriority | pkg/pvtdatastorage/common/store.go:473-513 | moving the unreconciled bits from prioritized to deprioritized |
| Reconcile.Deprioritize | pkg/pvtdatastorage/common/store.go:473-513 | one unreconciled bit is cleared in one group and set in the other |
| Reconcile.UpdateMissing | pkg/pvtdatastorage/common/store.go:143-187 | the written groups hold the reconciled bits and no empty bitmap |
| Reconcile.StagedData | pkg/pvtdatastorage/common/store.go:406-445 | an entry is staged exactly when its collection never expires or its expiry entry is stored |
| Reconcile.StagedExpiryHasData | pkg/pvtdatastorage/common/store.go:97-128 | a block with staged expiry entries has staged data, so the map made without room for expiry entries is never written to |
| Reconcile.MergeSound | pkg/pvtdatastorage/cdbpvtdatastore/store_impl.go:428-438 | merging staged entries keeps a document sound |
| Reconcile.MergeCoveredIff | pkg/pvtdatastorage/common/store.go:428-442 | the merged document covers its data exactly when no staged expiry entry replaced an earlier one of the call |
| Reconcile.ReconcileKeepsSound | pkg/pvtdatastorage/cdbpvtdatastore/reconcile_missing_pvtdata.go:68-84 | a reconciliation keeps the store sound |
| MissingInfo.ScannedExactly | pkg/pvtdatastorage/common/kv_encoding.go:198-203 | the scan delivers exactly the group's entries of blocks 1 to last |
| MissingInfo.StopsAtRecent | pkg/pvtdatastorage/common/store.go:318-334 | stopping after the limit's block has reported all and only the recent blocks |
| MissingInfo.PurgeInvisibleToInfo | pkg/pvtdatastorage/common/store.go:288-365 | deleting expired entries changes neither the recent bits nor whether an unknown collection is met |
| MissingInfo.PurgeInvisibleToReport | pkg/pvtdatastorage/common/store.go:288-365 | deleting expired entries changes no report, its error included |
| Eligibility.CollElgProc.ConvertEvent | pkg/pvtdatastorage/common/collelgproc.go:105-143 | every entry the event names is moved or in the pending batch |
| Eligibility.CollElgProc.ConvertEntries | pkg/pvtdatastorage/common/collelgproc.go:107-141 | every entry of the collection in range is moved or in the pending batch |
| Eligibility.CollElgProc.AddEntry | pkg/pvtdatastorage/common/collelgproc.go:116-136 | deletion and insertion of an entry go to one batch, which is written once over the maximum size |
| Eligibility.ScannedEventsExactly | pkg/pvtdatastorage/common/kv_encoding.go:205-208 | the event scan delivers every event but the one of block 0 |
| Eligibility.ScannedInelgExactly | pkg/pvtdatastorage/common/kv_encoding.go:175-196 | the entry scan delivers exactly the collection's entries of blocks 1 to the event block |
| Eligibility.RerunRecovers | pkg/pvtdatastorage/common/collelgproc.go:83-151 | converting again from any partly moved state gives the uninterrupted result |
| Eligibility.MoveConservesIff | pkg/pvtdatastorage/common/collelgproc.go:117-122 | moving keeps all missing bits exactly when no moved entry shadows other prioritized bits |
| CombinedStore.OpenedExpectsSameIff | pkg/pvtdatastorage/store_impl.go:54-68 | cache and database expect the same next block after opening, with the wrap of 0 - 1, unless block 0 is the last committed block |
| CombinedStore.ReopenedExpectsSame | pkg/pvtdatastorage/store_impl.go:54-68 | a store read back from its databases never meets that exception |
| CombinedStore.ReopenedOpenable | pkg/pvtdatastorage/store_impl.go:54-68 | every reachable database can be opened as a combined store |
| CombinedStore.CachedShowsIff | pkg/pvtdatastorage/cachedpvtdatastore/store_impl.go:213-253 | a cached block shows exactly its entries below their expiring block that the filter, if any, names |
| CombinedStore.CombinedFilterRestricts | pkg/pvtdatastorage/store_impl.go:116-127 | through the cache too, a filtered read is the unfiltered one without what the filter does not name |
| CombinedStore.CombinedAgreesIff | pkg/pvtdatastorage/store_impl.go:116-127 | the same agreement for every state that satisfies the invariant |
| CombinedStore.RunKeepsInv | pkg/pvtdatastorage/store_impl.go:105-113 | on unexpired keys cache and documents say the same after every run |
| CombinedStore.CacheStore.Commit | pkg/pvtdatastorage/cachedpvtdatastore/store_impl.go:77-118 | the block's entries are cached unless there are none; errors change nothing |
| CombinedStore.CacheStore.GetPvtDataByBlockNum | pkg/pvtdatastorage/cachedpvtdatastore/store_impl.go:138-162 | out of range, a miss, or the cached visible entries regrouped |
| CombinedStore.ReadCached | pkg/pvtdatastorage/cachedpvtdatastore/store_impl.go:213-253 | the loop over cached entries, failing on an unknown collection |
| CombinedStore.PvtDataStore.Commit | pkg/pvtdatastorage/store_impl.go:105-113 | the cache commits first; a database failure leaves the two apart |
| CombinedStore.PvtDataStore.GetPvtDataByBlockNum | pkg/pvtdatastorage/store_impl.go:116-127 | the cache's answer unless it is empty, then the database's |
| KeyEncoding.EncodeReverseOrder | pkg/pvtdatastorage/common/kv_encoding.go:215-232 | the byte loop computes the count of leading 0xff bytes and the rest of the complement |
| KeyEncoding.DecodeReverseOrder | pkg/pvtdatastorage/common/kv_encoding.go:234-245 | the byte loop reads the number and its length back for every count byte up to 8 |
| KeyEncoding.ReverseOrderRoundTrip | pkg/pvtdatastorage/common/kv_encoding.go:215-245 | decoding gives the number and consumed length whatever bytes follow |
| KeyEncoding.ReverseOrderSelfDelimiting | pkg/pvtdatastorage/common/kv_encoding.go:215-245 | no encoding runs into what follows it |
| KeyEncoding.CollElgScanExact | pkg/pvtdatastorage/common/kv_encoding.go:205-208 | the event range holds exactly the event keys above block 0 |
| KeyEncoding.IndexKeysInjective | pkg/pvtdatastorage/common/kv_encoding.go:93-131 | different index entries have different keys |
| KeyEncoding.EligibleKeysNewestFirst | pkg/pvtdatastorage/common/kv_encoding.go:93-113 | a higher block's key sorts first |
| KeyEncoding.EligibleKeyRoundTrip | pkg/pvtdatastorage/common/kv_encoding.go:93-123 | an eligible key decodes to its parts exactly when neither name contains a nil byte |
| KeyEncoding.InelgKeyRoundTrip | pkg/pvtdatastorage/common/kv_encoding.go:125-140 | an ineligible key decodes to its parts exactly when neither name contains a nil byte, nil bytes in the block number included |
| KeyEncoding.DataKeyRoundTrip | pkg/pvtdatastorage/common/kv_encoding.go:38-43 | a data key decodes to its parts exactly when the namespace contains no nil byte, and is never taken for a v1.1 key |
| KeyEncoding.DataKeysInjective | pkg/pvtdatastorage/common/kv_encoding.go:38-43 | different data keys have different encodings |
| KeyEncoding.DataKeyOrder | pkg/pvtdatastorage/common/kv_encoding.go:38-43 | encoded keys of a block sort by transaction, then namespace |
| KeyEncoding.HeightRoundTrip | pkg/common/version/version.go:27-44 | a height decodes to its block, transaction and length |
| KeyEncoding.BlockKeyOrder | pkg/pvtdatastorage/cdbpvtdatastore/couchdb_conv.go:264-266 | 64-digit zero-padded keys sort as the numbers do |
| KeyEncoding.TransientKeyRoundTrip | pkg/transientstore/common/common_store_helper.go:73-101 | uuid and height are read back from the key of a record whose identifiers contain no nil byte |
| TransientIndex.Search | pkg/transientstore/store_helper.go:84-89 | the binary search finds the first element that is not less |
| TransientIndex.Find | pkg/transientstore/store_helper.go:132-139 | found exactly when present, at its index |
| TransientIndex.Add | pkg/transientstore/store_helper.go:75-81 | the value joins the slice, which is in order, and has no duplicates when the value was not there |
| TransientIndex.RemoveLists | pkg/transientstore/store_helper.go:92-96 | cutting an index out removes just that element |
| TransientIndex.SliceUnique | pkg/transientstore/store_helper.go:163-176 | in place, the first occurrences in their order |
| TransientIndex.FirstOccurrencesUnique | pkg/transientstore/store_helper.go:163-190 | no element twice and none lost |
| TransientIndex.AddTo | pkg/transientstore/store.go:134-144 | one pair joins the relation the index holds |
| TransientIndex.RemoveRow | pkg/transientstore/store.go:250-269 | the values leave one slice, and an empty slice leaves the cache |
| TransientIndex.RemoveRows | pkg/transientstore/store.go:318-340 | exactly the pairs of a listed key and a listed value leave the relation, and no empty slice is left |
| TransientIndex.Collect | pkg/transientstore/store.go:277-294 | all values of the listed keys; lookups leave empty slices only for those keys |
| TransientStore.Store.GetTxPvtRWSetByTxid | pkg/transientstore/store.go:148-169 | exactly the transaction's records, each once, none changed |
| TransientStore.PurgeSets | pkg/transientstore/store.go:208-232 | every key decodes, and the transactions' records below the height are gone |
| TransientStore.TakeBelow | pkg/transientstore/store.go:298-309 | the heights below the limit, their transactions, and the index without them |
| RefCounter.CloseTakesEffect | pkg/common/reference/counter.go:64-73 | a Close past its first swap has put the counter in a closing state for good |
| RefCounter.StepsAreBounded | pkg/common/reference/counter.go:38-79 | every operation finishes within a bounded number of its own steps |
| RefCounter.WholeMethodsCloseAtZero | pkg/common/reference/counter.go:38-79 | with each method one step the close function runs at most once, only at count 0, and the count stays 0 |
| RefCounter.WholeCallKeepsInv | pkg/common/reference/counter.go:38-79 | each whole method keeps that invariant |
| RefCounter.IncrementRuns | pkg/common/reference/counter.go:38-47 | the steps of an undisturbed Increment add up to its effect |
| RefCounter.DecrementRuns | pkg/common/reference/counter.go:49-62 | the steps of an undisturbed Decrement add up to its effect |
| RefCounter.CloseRuns | pkg/common/reference/counter.go:64-73 | the steps of an undisturbed Close add up to its effect |
| RefCounter.Counter.Increment | pkg/common/reference/counter.go:38-47 | refused unless open, otherwise one more |
| RefCounter.Counter.Decrement | pkg/common/reference/counter.go:49-62 | one less, an error and no change at 0, closing when pending and last |
| RefCounter.Counter.Close | pkg/common/reference/counter.go:64-73 | pending, and closed at once when nothing is held |
| RefCounter.Counter.NotifyClosed | pkg/common/reference/counter.go:75-79 | the close function is called only by the one that swaps the status |
| BlockStore.RunKeepsInv | pkg/blkstorage/cdbblkstorage/cdb_blkstorage.go:67-204 | once a checkpoint is saved, every run keeps the whole chain from the same first block |
| BlockStore.StepKeepsInv | pkg/blkstorage/cdbblkstorage/cdb_blkstorage.go:120-204 | each step keeps the chain from its first block |
| BlockStore.AlwaysReopens | pkg/blkstorage/cdbblkstorage/cdb_blkstorage.go:67-118 | wherever the process stopped, the head block is there to reopen on |
| BlockStore.TakesNextIff | pkg/blkstorage/cdbblkstorage/cdb_blkstorage.go:139-167 | in every idle state reached a block is taken exactly when the chain is empty or it continues the stored head in number and hash |
| BlockStore.AddedIsRead | pkg/blkstorage/cdbblkstorage/cdb_blkstorage.go:120-204 | an added block is read by its number and as the newest one, and all other reads stay |
| BlockStore.IteratorProgresses | pkg/blkstorage/cdbblkstorage/blocks_itr.go:47-63 | a call of an open iterator whose next block is published returns that block |
| BlockStore.ClosedYieldsNothing | pkg/blkstorage/cdbblkstorage/blocks_itr.go:65-73 | Close is possible at any time, wakes a waiting call, and no block is returned afterwards |
| BlockStore.NewestIsHead | pkg/blkstorage/cdbblkstorage/cdb_blkstorage.go:222-233 | the highest number asks for the block the checkpoint names |
| BlockStore.ReadsPastOnlyWhenEmpty | pkg/blkstorage/cdbblkstorage/blocks_itr.go:24-39 | an iterator can read past the checkpoint exactly when it was made from 0 on an empty chain |
| BlockCache.Cache.Put | pkg/blkstorage/cdbblkstorage/blockcache.go:76-92 | the caches keep agreeing with the store that holds the block |
| BlockCache.Cache.SetConfigBlock | pkg/blkstorage/cdbblkstorage/blockcache.go:115-131 | the pinned block is the highest-numbered config block put or loaded so far |
| BlockCache.Cache.GetBlockByHash | pkg/blkstorage/cdbblkstorage/blockcache.go:152-161 | a right answer by hash, for every eviction and size, zero included |
| BlockCache.Cache.Grows | pkg/blkstorage/cdbblkstorage/blockcache.go:76-92 | a store that adds a block keeps the caches right when a number has one block |
| BlockCache.HashAnswerUnique | pkg/blkstorage/cdbblkstorage/store.go:38-59 | with a collision-free hash there is one right answer |
| CdbBlockStore.Store.AddBlock | pkg/blkstorage/cdbblkstorage/cdb_blkstorage.go:120-167 | refuses an invalid next block; otherwise does all the machine's steps, or stops where the checkpoint cannot be saved |
| CdbBlockStore.Store.CheckpointBlock | pkg/blkstorage/cdbblkstorage/cdb_blkstorage.go:172-204 | cache, saved checkpoint, blockchain info and checkpoint all describe the block; a failed save changes only the cache |
| CdbBlockStore.Store.RetrieveBlockByNumber | pkg/blkstorage/cdbblkstorage/cdb_blkstorage.go:222-233 | the store's block through the cache, the highest number meaning the newest |
| CdbBlockStore.Store.RetrieveBlockByHash | pkg/blkstorage/cdbblkstorage/cdb_blkstorage.go:217-219 | a right answer through the cache |
| CdbBlockStore.CheckpointRoundTrip | pkg/blkstorage/cdbblkstorage/cdb_checkpoint.go:110-155 | a saved checkpoint is read back as it was |
| ResourceManager.Manager.InitializeRound | pkg/resource/resourcemgr.go:118-140 | the loop makes, leaves and calls what the round does, and stops at a fatal error |
| ResourceManager.RoundReturns | pkg/resource/resourcemgr.go:173-185 | a creator that is called and does not return one value is not made and is what ends the round with that error |
| ResourceManager.RoundSplits | pkg/resource/resourcemgr.go:118-140 | a round without a fatal error makes creators in a justified order and leaves only unsatisfied ones, whatever their argument types |
| ResourceManager.Manager.Create | pkg/resource/resourcemgr.go:173-185 | the creator is called exactly when its arguments resolve, and must return one value |
| ResourceManager.LeastClosedUnique | pkg/resource/resourcemgr.go:78-108 | the least closed set is unique, so no registration order can matter |
| ResourceManager.StuckIsLeast | pkg/resource/resourcemgr.go:102-104 | a round that makes nothing has reached the least closed set |
| InjectInvoker.FirstImplIsFirst | pkg/common/injectinvoker/injectinvoker.go:84-95 | the provider injected for an interface is the first one that implements it |
| InjectInvoker.ArgsResolveIff | pkg/common/injectinvoker/injectinvoker.go:58-69 | the same for all arguments of every function |
| InjectInvoker.ResolvedFits | pkg/common/injectinvoker/injectinvoker.go:71-150 | what is injected implements the interface at every depth; unsettable and unsupported fields stay zero |
| InjectInvoker.Invoker.GetProviderForInterface | pkg/common/injectinvoker/injectinvoker.go:84-95 | the first provider that implements the interface |
| InjectInvoker.Invoker.GetProviderForType | pkg/common/injectinvoker/injectinvoker.go:71-115 | resolution by kind |
| InjectInvoker.Invoker.PopulateFields | pkg/common/injectinvoker/injectinvoker.go:117-126 | fields in order, stopping at the first error |
| InjectInvoker.Invoker.GetProviderForField | pkg/common/injectinvoker/injectinvoker.go:128-150 | an unsettable or unsupported field is skipped |
| InjectInvoker.Invoker.GetArgValues | pkg/common/injectinvoker/injectinvoker.go:58-69 | arguments in order, stopping at the first error |
| VisitorLaws.HandedOutIff | pkg/common/blockvisitor/blockvisitor.go:286-674 | an event is handed out exactly when some place of the block holds it |
| VisitorLaws.OnlyValidTxs | pkg/common/blockvisitor/blockvisitor.go:336-343 | an event of a transaction comes from a valid one that decodes, under its own identifier |
| VisitorLaws.TxsInOrder | pkg/common/blockvisitor/blockvisitor.go:295-315 | transactions are handed out in block order |
| VisitorLaws.LsccIff | pkg/common/blockvisitor/blockvisitor.go:828-849 | a lifecycle namespace gives nothing, one error, or one event with the last chaincode and the last collection configuration written |
| VisitorLaws.WholeWhenNothingFails | pkg/common/blockvisitor/blockvisitor.go:286-316 | when everything decodes and no handler fails the whole block is handed out, whatever the error handler does |
| VisitorLaws.StopsAtFirstError | pkg/common/blockvisitor/blockvisitor.go:910-913 | an error handler that lets nothing pass ends the walk right after the first event that does not decode or whose handler fails |
| BlockVisitor.HandledExactly | pkg/common/blockvisitor/blockvisitor.go:910-913 | handling events one by one stops right at the first that halts and not before |
| BlockVisitor.CompleteWhenAllPass | pkg/common/blockvisitor/blockvisitor.go:238-241 | an error handler that always returns nil sees the whole block handed out |
| BlockVisitor.Visitor.VisitEnvelopes | pkg/common/blockvisitor/blockvisitor.go:295-315 | envelopes in order |
| BlockVisitor.Visitor.VisitEnvelope | pkg/common/blockvisitor/blockvisitor.go:318-356 | by header type; invalid transactions give no events |
| BlockVisitor.Visitor.VisitConfigUpdate | pkg/common/blockvisitor/blockvisitor.go:358-365 | an undecodable update does not halt by itself |
| BlockVisitor.Visitor.VisitTx | pkg/common/blockvisitor/blockvisitor.go:393-411 | actions, then private data |
| BlockVisitor.Visitor.VisitActions | pkg/common/blockvisitor/blockvisitor.go:395-404 | a transaction's actions in order |
| BlockVisitor.Visitor.VisitTXAction | pkg/common/blockvisitor/blockvisitor.go:413-466 | one error event for the first message that does not decode |
| BlockVisitor.Visitor.VisitChaincodeAction | pkg/common/blockvisitor/blockvisitor.go:468-478 | results, then the chaincode event |
| BlockVisitor.Visitor.VisitChaincodeActionResults | pkg/common/blockvisitor/blockvisitor.go:480-499 | the read-write sets, or one error event |
| BlockVisitor.Visitor.VisitChaincodeActionEvents | pkg/common/blockvisitor/blockvisitor.go:501-530 | the event, or one error event |
| BlockVisitor.Visitor.VisitTxReadWriteSet | pkg/common/blockvisitor/blockvisitor.go:532-544 | namespaces in order |
| BlockVisitor.Visitor.VisitNsReadWriteSet | pkg/common/blockvisitor/blockvisitor.go:546-566 | reads, then one lifecycle event in place of writes and collections, or writes and collections |
| BlockVisitor.Visitor.PublishLSCCWrite | pkg/common/blockvisitor/blockvisitor.go:571-602 | one lifecycle event, or one error event |
| BlockVisitor.GetCCInfo | pkg/common/blockvisitor/blockvisitor.go:828-849 | the last chaincode and the last collection configuration written |
| BlockVisitor.Visitor.VisitCollHashRWSets | pkg/common/blockvisitor/blockvisitor.go:604-618 | per collection, hashed reads then hashed writes |
| BlockVisitor.Visitor.VisitPvtDataWriteSet | pkg/common/blockvisitor/blockvisitor.go:620-636 | private namespaces in order |
| BlockVisitor.Visitor.VisitPvtNsWriteSet | pkg/common/blockvisitor/blockvisitor.go:638-650 | private collections in order |
| BlockVisitor.Visitor.VisitPvtCollWriteSet | pkg/common/blockvisitor/blockvisitor.go:652-674 | reads then writes under the collection's namespace, or one error event |
| BlockVisitor.Visitor.PublishCollHashReads | pkg/common/blockvisitor/blockvisitor.go:676-697 | one event per hashed read until one halts |
| BlockVisitor.Visitor.PublishCollHashWrites | pkg/common/blockvisitor/blockvisitor.go:699-720 | one event per hashed write until one halts |
| BlockVisitor.Visitor.PublishWrites | pkg/common/blockvisitor/blockvisitor.go:722-739 | one event per write until one halts |
| BlockVisitor.Visitor.PublishReads | pkg/common/blockvisitor/blockvisitor.go:741-761 | one event per read until one halts |
| CompositeKey.Create | pkg/common/compositekey/compositekey.go:27-33 | every component closed by U+0000 |
| CompositeKey.Split | pkg/common/compositekey/compositekey.go:39-49 | the nil-free pieces that join to the key; none when no piece is closed |
| CompositeKey.RangeExact | pkg/common/compositekey/compositekey.go:52-55 | the partial range holds exactly the keys of the object type whose attributes extend the given ones |
| CompositeKey.Utf8RuneExact | pkg/common/compositekey/compositekey.go:16-20 | the bytes of a code point have the lengths, lead and continuation bytes of the Unicode standard and give it back |
| CompositeKey.Utf8Order | pkg/common/compositekey/compositekey.go:16-20 | comparing UTF-8 bytes is comparing code points |
| CdbStore.Store.constructor | pkg/pvtdatastorage/cdbpvtdatastore/store_impl.go:179-199 | a store over empty databases starts empty |
| CdbStore.Store.NextBlockNum | pkg/pvtdatastorage/cdbpvtdatastore/store_impl.go:626-631 | block 0 for an empty store, otherwise the successor modulo 2^64 |
| Assembler.TxAssembler.constructor | pkg/pvtdatastorage/common/helper.go:235-237 | an assembler starts with no write set |
| Assembler.BlockAssembler.constructor | pkg/pvtdatastorage/cdbpvtdatastore/blockpvtdata_assembler.go:30-46 | a block assembler starts empty |
| Eligibility.CollElgProc.constructor | pkg/pvtdatastorage/common/collelgproc.go:30-39 | the converter over a database and a batch size |
| Eligibility.CollElgProc.WriteBatch | pkg/pvtdatastorage/common/collelgproc.go:125-128 | a batch is applied as one step |
| CombinedStore.CacheStore.constructor | pkg/pvtdatastorage/cachedpvtdatastore/store_impl.go:54-67 | block 0 as the last committed block makes an empty cache |
| CombinedStore.CacheStore.NextBlockNum | pkg/pvtdatastorage/cachedpvtdatastore/store_impl.go:198-203 | block 0 for an empty cache, otherwise the successor modulo 2^64 |
| CombinedStore.CacheStore.Evict | pkg/pvtdatastorage/cachedpvtdatastore/store_impl.go:55-55 | any blocks may leave the cache |
| CombinedStore.PvtDataStore.constructor | pkg/pvtdatastorage/store_impl.go:54-68 | the cache is opened at the database's height minus one |
| TransientStore.Store.constructor | pkg/transientstore/store.go:47-53 | a new store holds no records |
| RefCounter.Counter.constructor | pkg/common/reference/counter.go:30-35 | a counter starts open at 0 |
| BlockCache.Cache.constructor | pkg/blkstorage/cdbblkstorage/blockcache.go:37-50 | empty caches agree with every store |
| BlockCache.Cache.Evict | pkg/blkstorage/cdbblkstorage/blockcache.go:52-74 | any entries may leave the caches |
| CdbBlockStore.Store.constructor | pkg/blkstorage/cdbblkstorage/cdb_blkstorage.go:67-118 | opening is the machine's restart |
| ResourceManager.Manager.Register | pkg/resource/resourcemgr.go:70-75 | creators are kept in order |
| InjectInvoker.Invoker.constructor | pkg/common/injectinvoker/injectinvoker.go:31-35 | an invoker over the given providers |
| InjectInvoker.Invoker.AddProvider | pkg/common/injectinvoker/injectinvoker.go:38-40 | a provider joins at the end |

## Left out

- StoreRuns.PurgeNeverSeen: its runs, and those of the other run theorems, do not reopen the store while block 0 is its last block, where the original takes the store for empty (`PvtStore.ReopenInvisibleIff`).
- KeyEncoding.DecodeReverseOrder: a count byte above 8 or one stored as a longer varint is not modelled, because the encoder never writes one.
- BlockStore.ChainFromFirst: a block 0 that follows the block numbered 2^64 - 1 is excluded from the runs, because the number wraps there.
- BlockCache.Cache.Grows: assumes one block per number, because a cache that saw another block under the number is not corrected.
- CdbBlockStore.Store.AddBlock: assumes one block per number for the same reason, and does not model a peer that is not a committer.
- KeyEncoding.TransientKeyRoundTrip: assumes that neither identifier contains a nil byte; with one the key splits elsewhere.
- TransientStore.Store.Persist: assumes the same of the transaction identifier and the uuid.
- TransientStore.Store.GetTxPvtRWSetByTxid: returns the stored pairs; decoding and trimming them in the scanner is not modelled.
- TransientStore.Store.PurgeByTxids: does not model that the caller's slice comes back sorted.
- ResourceManager.Manager.Initialize: registrations are told apart by an identifier.
- InjectInvoker.ResolvesIff: types are finite trees, because a struct that reaches itself through a pointer makes the original recurse without end.
- MissingInfo.GetMissingPvtDataInfoForMostRecentBlocks: assumes no empty bitmap is stored, which `StoreRuns.RunKeepsIndex` shows of every run of the store; the block of an empty one would be counted again.
- Eligibility.CollElgProc.ProcessCollElgEvents: does not model writes by others while the converter sleeps with its lock released, or failed batches, which the original only logs.
- Transaction lists, expiring-block lists and the unreconciled list are sets, so their order and repetitions are not captured.
- Documents are keyed by data key and expiry key, not by the hexadecimal text; `KeyEncoding.DataKeysInjective` and the order members justify it for data keys.
- CdbStore.Store.CommitEntries: the document and the index batch are written as one step; the pending-commit marker between them and its recovery are not modelled.
- CdbStore.Store.CommitPvtDataOfOldBlocks: the list of last updated old blocks, and the refusal while an earlier process left one, are not modelled. It assumes that no empty bitmap is stored, which `StoreRuns.RunKeepsIndex` shows of every run.
- CdbStore.Store.Reopen: the flag for that list is not read back.
- Rollback and reset of the block store, transaction lookup, and export of transaction identifiers.
- Peers that do not commit, and the block publisher that feeds them.
- The counter in the visitor that is set from outside, and the request manager.
- CouchDB revisions and conflicts, LevelDB, protocol-buffer and gossip internals.
- Configuration, logging, mocks, the identifier store, chaincode registries and the dispatcher, which would only add easy members.
