# Rollytics indexer: verified model

Rollytics follows a rollup chain and keeps a relational index of it in Postgres. This project models
the parts of it where concurrency, crashes, batching or numbering make correctness non-obvious, and
proves what those parts promise. Postgres tables are finite maps with atomic transactions, in-memory
caches are maps that may lose entries at any time, and goroutines are steps of a transition system
whose event lists range over every interleaving.

`dafny verify dfyconfig.toml` checks everything.

## How it is laid out

| file | subject |
|---|---|
| `Pipeline.dfy`, `Indexer.dfy` | block pipeline: scraper, channel, parallel prepare goroutines, `blockMap`, sequential collect, crash and restart; the indexer object whose methods are steps of it |
| `Scraper.dfy` | fast and slow synchronisation |
| `Numbering.dfy`, `TxCollect.dfy` | sequence numbers, the tx submodule, the MAX fast count |
| `CallTree.dfy`, `InternalTx.dfy`, `WorkQueue.dfy` | internal transactions: flattening, per-block transaction, producer and consumer over a bounded queue |
| `NftFold.dfy`, `MoveNft.dfy`, `MoveBatch.dfy` | NFT submodules: event fold, batch writes, prefetch pass |
| `Address.dfy`, `Edges.dfy`, `Sweep.dfy`, `Cleanup.dfy`, `EvmRet.dfy` | `tx_accounts`: address extraction, the collector's rows, and the two background repairs |
| `Dictionary.dfy` | account dictionary behind an evictable cache |
| `RichList.dfy` | EVM rich list |
| `Pagination.dfy`, `CursorKey.dfy` | cursor pagination and the text of its keys |
| `Rotation.dfy` | endpoint rotation with jittered backoff |

State machines are total functions `Next(state, event)`: an event that is not enabled leaves the
state as it is, so a theorem about `Run` over all event lists covers every schedule, crashes
included. Where the code updates an object in place there is a class, and each of its methods is
proved equal to a step or a function that the lemmas are about.

## What the proofs found

Some of the natural claims do not hold for every input. In each case the code is modelled as it is,
the failing input is given, and the exact condition is proved.

- The block table stays one interval in every run exactly when START_HEIGHT is unset or at most one
  above the least chain head any start is told; a lagging endpoint at a later start is enough for a
  hole (`Pipeline.ContiguousIff`, `Pipeline.HoleSchedule`).
- The comment on `computeStartHeight` promises a result of at most the chain head. The code returns
  more exactly when the database is ahead of the chain (`Pipeline.StartHeightBounds`).
- Fast sync sends exactly the heights up to the one it returns if and only if no height above a
  refused one succeeded (`Scraper.FastSyncExact`, `Scraper.FastSyncHole`).
- A stored token that is burned and minted again in one block keeps its old row; the batch equals
  the one-by-one meaning if and only if no insert is lost (`NftFold.RemintIsLost`,
  `NftFold.BatchIsSequentialIff`); for Move a move or mutation from before the mint must not show
  either (`MoveBatch.BatchIsSequentialIff`).
- A collection whose last token is burned keeps its old `nft_count`; with a token left, the count is
  right if and only if the block minted or burned there or moved only known tokens
  (`NftFold.CountLaw`, `NftFold.CountRightIff`).
- The Move collector's missing-resource error is reachable exactly through a burn under another
  collection (`MoveNft.MissingResourceIff`).
- The ret cleanup can delete a row the reconciliation wants. A log with an empty contract address
  counts as the zero address for one and not for the other (`Edges.WantedRowGoes`); and 32 bytes that
  start with 12 zero bytes turn into a counted 20-byte account on their way through hex
  (`Edges.ShortenedRowGoes`). The two repairs end in the same table in either order if and only if
  every ret-only address is looked up as an account that is not stored, is the signer's, or comes from
  no such log word, respectively from no counted place (`Edges.RepairsCommuteIff`).
- A transaction the sweep has fixed stays right while the dictionary grows if and only if none of its
  addresses gets an account afterwards (`Edges.CleanGrowsIff`, `Sweep.SweepRepairsAll`).
- A height of the internal-tx queue is lost if and only if a process fails on it and then, before
  any crash, saves another (`WorkQueue.PassedOverIff`, with a schedule in `WorkQueue.FailureCanLose`);
  it stays lost (`WorkQueue.FailedItemIsLost`). A failure followed by a crash loses nothing.
- The account edges of a block's internal transactions point at stored rows if and only if every row
  that names an account was inserted; a repeated hash leaves edges without one
  (`InternalTx.StoredEdgesIff`).
- A duplicate hash in a block consumes a number without a row, after which MAX(sequence) is no
  longer the row count (`Numbering.CollectedExactIff`, `InternalTx.RunKeepsNumbersIff`).
- MAX(height) as the block count is right exactly when indexing began at height 1
  (`Numbering.BlockFastCountIff`); MAX(sequence) over the message-type edges is right exactly when no
  transaction without a message type comes before one with (`Numbering.EdgeFastCountIff`).
- A creating call reports the ids of the table, and leaves them in the cache, if and only if none of
  the accounts it inserts is stored already or listed in two spellings
  (`Dictionary.AccountDictionary.GetOrCreateAccountIds`); a rolled-back call leaves a wrong
  cache exactly when a key of a created account stays in it (`Dictionary.RollbackIff`).
- Paging the edge table first gives every request the page of the filtered transactions if and only
  if the edge table lists only stored transactions, or none (`Pagination.EdgePagesAgreeIff`); a
  duplicate hash can leave an edge without a transaction.
- An account written in hex and parsed again is the same account if and only if its bytes are
  canonical: 32 bytes with 12 leading zero bytes come back as 20 (`Address.HexDetourIff`).
- A cursor survives its trip through a JSON number exactly when it is a multiple of the float
  spacing, so up to 2^53 and not at 2^53 + 1 (`Pagination.CursorExactIff`).
- EVM balance deltas of a denom add up to mints less burns exactly when the amounts lost to
  unparsable topics balance (`RichList.ConservationIff`). The distance of five blocks to the chain
  head holds for block transactions; the initial snapshot is taken at the latest block itself
  (`RichList.SnapshotAtTheTop`).

## Model

| member | source | states |
|---|---|---|
| Pipeline.StartHeightBounds | indexer/indexer.go:331-345 | the start height is at least the next database height, and at most the chain head if and only if the database is not ahead; it is the next one unless START_HEIGHT and the head are both above it, and then the lower of those |
| Pipeline.CachesHoldStep | indexer/indexer.go:212-254 | every step keeps: a block waiting at or above the next one to take has its tx and NFT data cached, duplicates and retries included |
| Pipeline.AlwaysPrepared | indexer/collector/tx/collect.go:31-38 | in every run, with duplicate scrapes, retried prepares and crashes, "data is not prepared" is never returned |
| Pipeline.CommitExtends | indexer/collector/block/collect.go:25-43 | a commit extends the table at its top only and keeps the ordering invariant |
| Pipeline.OrderedStep | indexer/indexer.go:267-329 | every scheduling step, restart and crash keeps the table an interval made of the commits in order |
| Pipeline.HoleSchedule | indexer/indexer.go:337-345 | for every START_HEIGHT two or more above the least head a start may be told there is a schedule that leaves a hole |
| Pipeline.ContiguousIff | indexer/indexer.go:63-149 | the block table is one interval in every run, whatever heads the starts are told from low on, if and only if START_HEIGHT is unset or at most one above low |
| Pipeline.OrderedFromEmpty | indexer/collector/collector.go:79-98 | in such runs the commits count up by one, so each height is committed once and in order, and they are the rows of the table |
| Pipeline.Progresses | indexer/indexer.go:63-149 | from every stopped state some schedule after one start adds exactly the next database height, or START_HEIGHT if that is above it and at most the head |
| Pipeline.FirstCommit | indexer/indexer.go:331-345 | and whatever the schedule until the next start, the first height committed is that one |
| Indexer.Indexer.ReceiveBlock | indexer/indexer.go:174-191 | popping a block is the pipeline's receive step: drop it below the height read, else count and start a goroutine |
| Indexer.Indexer.StorePrepared | indexer/collector/tx/prepare.go:41-46 | storing fetched data is the pipeline's prepared step and keeps the caches invariant |
| Indexer.Indexer.FinishPrepare | indexer/indexer.go:249-256 | entering `blockMap` and leaving the count are one step; the count stays the number of goroutines |
| Indexer.Indexer.Start | indexer/indexer.go:63-86 | a start resumes at the computed height with empty caches and is the pipeline's start step |
| Indexer.Indexer.ControlFlow | indexer/indexer.go:276-289 | pause and start alternate, with hysteresis at 100 and 50 blocks in flight |
| Indexer.Indexer.TakeBlock | indexer/indexer.go:291-298 | a block taken has both cache entries |
| Indexer.Indexer.CollectBlock | indexer/collector/collector.go:79-107 | undisturbed collection skips a stored height, commits a next one, or stops without a row when the previous row is missing |
| Indexer.Indexer.TableIsInterval | indexer/indexer.go:267-329 | whatever methods were called in whatever order, with START_HEIGHT unset or at most one above the least head any start was told, the object's table is one interval committed in order |
| Scraper.FastSyncExact | indexer/scraper/sync.go:26-140 | in every interleaving, pause race included, no height is sent twice and concurrency is bounded; the heights sent are exactly those up to the returned one if and only if nothing above a refused height succeeded |
| Scraper.FastSyncHole | indexer/scraper/sync.go:94-140 | a concrete schedule that returns with height 1 missing and 2 sent |
| Scraper.SortSorts | indexer/scraper/sync.go:192-194 | sorting the results orders them and keeps their members |
| Scraper.SlowSync.Batch | indexer/scraper/sync.go:143-212 | whatever the arrival order, the round sends each success once and moves the cursor to the first height of the window that failed |
| Scraper.SlowRunCovers | indexer/scraper/sync.go:156-208 | over any series of batches all heights below the cursor were sent and nothing a batch beyond it |
| Scraper.NoHeightSkipped | indexer/scraper/scraper.go:41-54 | fast sync without a hole, then slow sync: every height from the start to the cursor has been sent |
| Numbering.ExactIff | indexer/collector/tx/collect.go:277-280 | a batch keeps the stored numbers exactly 1..N if and only if none of its rows conflicts |
| Numbering.NumberAt | indexer/collector/tx/collect.go:223-231 | the j-th row of a conflict-free batch is stored under the j-th next number |
| Numbering.CollectedExactIff | indexer/collector/tx/collect.go:298-302 | over any run of blocks of growing height the numbers end up exactly 1..N, N in seq_info, if and only if no block repeats a hash |
| Numbering.RunNumberAt | indexer/collector/tx/collect.go:223-231 | over such a run rows are numbered in the order of height and of position within a height |
| Numbering.RunNumbersExactly | types/table.go:412-418 | from an empty table, in such runs, MAX(sequence) is the number of rows |
| Numbering.FastCountIsCount | util/common-handler/common/count.go:96-124 | the MAX fast count of an exactly numbered table is its row count |
| Numbering.BlockFastCountIff | types/table.go:427-429 | MAX(height) counts the blocks of an interval if and only if it begins at 1 |
| Numbering.MaxIsSizeIff | util/common-handler/common/count.go:96-124 | over any set of positive numbers MAX is the count if and only if no number below it is missing |
| Numbering.EdgeFastCountIff | types/table.go:446-450 | MAX(sequence) over tx_msg_types is the number of transactions listed if and only if none without a message type comes before one with |
| TxCollect.TxStore.GrepAddressesFromTx | indexer/collector/tx/address.go:45-82 | an address is found if and only if it is what some log's contract or a topic beginning with 0x and 24 zeros parses to, or what a comma-separated part of another value, an address as a whole, parses to; `ret` attributes never count |
| TxCollect.TxStore.AddEdges | indexer/collector/tx/collect.go:233-245 | each distinct known account of a transaction gets one row, only the signer's flagged, existing rows kept |
| TxCollect.TxStore.Collect | indexer/collector/tx/collect.go:27-306 | a block numbers its transactions consecutively, adds their account rows and advances the counter by their number |
| TxCollect.BlockIsClean | indexer/collector/tx/collect.go:233-245 | every transaction of a collected block has exactly its expected account rows with the right signer flags |
| TxCollect.BlockAccounts | indexer/collector/tx/collect.go:233-245 | the accounts stored for a transaction are its signer and every account that one of its attributes counts for, and only the signer's row is flagged |
| CallTree.Accumulator.AddEdges | indexer/extension/internaltx/util.go:104-116 | one edge for each distinct account of a call, in first-seen order, at the call's sequence |
| CallTree.Accumulator.ProcessInternalCall | indexer/extension/internaltx/util.go:11-135 | the recursion yields the preorder rows of the tree and the edges of exactly these rows, advances the shared counter by its size, and fails exactly on a malformed call |
| CallTree.FlattenNumbers | indexer/extension/internaltx/util.go:45-102 | row k has index start+k and the k-th next sequence; its parent is an earlier row of the same call |
| CallTree.EdgesOfRows | indexer/extension/internaltx/util.go:104-116 | for every tree an edge (a, s) is collected if and only if some row has sequence s and a is its non-zero from, its non-zero to or one of its arguments; and it is collected once |
| CallTree.RebuildInverts | indexer/extension/internaltx/util.go:118-135 | for every well-formed tree, rebuilding from Index and ParentIndex gives it back, sibling order included |
| CallTree.UnderIsRange | indexer/extension/internaltx/util.go:118-135 | in a closed range of rows, following parent links leads to its first row from exactly the rows of the range |
| CallTree.SubtreeIsRange | indexer/extension/internaltx/util.go:118-135 | the descendants of a row are one contiguous index range as long as its subtree |
| InternalTx.Store.CollectInternalTxs | indexer/extension/internaltx/collect.go:28-125 | all or nothing: a bad hash or malformed call changes nothing, otherwise rows and counter grow by exactly the block's traces and the edges by exactly those of their rows |
| InternalTx.BlockRowsNumbered | indexer/extension/internaltx/collect.go:53-84 | the rows of all traces of a block are numbered consecutively across traces, failed ones skipped |
| InternalTx.TraceOfRow | indexer/extension/internaltx/collect.go:53-84 | every row of a block belongs to a trace that did not fail |
| InternalTx.BlockEdgesOfRows | indexer/extension/internaltx/collect.go:53-99 | the edges of a block are exactly those of its rows, each once |
| InternalTx.StoredEdgesIff | indexer/extension/internaltx/collect.go:101-123 | they are exactly those of the rows added to the table if and only if every row that names an account was inserted |
| InternalTx.BlockKeepsNumbersIff | indexer/extension/internaltx/collect.go:101-123 | a block keeps the stored numbers exactly 1..N if and only if no two indexed traces share a hash |
| InternalTx.RunKeepsNumbersIff | indexer/extension/internaltx/collect.go:101-123 | over any run of blocks of growing height the numbers end up exactly 1..N, N in seq_info, if and only if no block holds two indexed traces with one hash |
| InternalTx.RunFastCount | types/table.go:420-424 | from an empty table MAX(sequence) is then the number of internal transactions |
| InternalTx.StoredTree | indexer/extension/internaltx/collect.go:101-123 | selecting a stored transaction's rows by index and rebuilding gives its call tree, apart from the top-level output |
| WorkQueue.QueueInOrder | indexer/extension/internaltx/extension.go:214-272 | in every run a scraped item finds room, and popped, queued and waiting items are exactly the first tx-bearing heights above the start, ascending |
| WorkQueue.SavedExactlyOnce | indexer/extension/internaltx/extension.go:111-121 | when consumption fails only by crashes, over any restarts the saved heights are exactly the row-bearing ones up to the last, each once |
| WorkQueue.SavedExactlyIff | indexer/extension/internaltx/extension.go:185-211 | in every run the saved heights are ascending, and exactly the row-bearing ones up to the last saved if and only if no process failed on one and then saved another |
| WorkQueue.PassedOverIff | indexer/extension/internaltx/extension.go:185-211 | a height is lost if and only if a process failed on it and, before any crash, saved another row-bearing one |
| WorkQueue.FailedItemIsLost | indexer/extension/internaltx/extension.go:111-121 | a lost height stays missing in every continuation, restarts included |
| WorkQueue.FailureCanLose | indexer/extension/internaltx/extension.go:185-211 | a schedule in which a height is lost |
| WorkQueue.Progresses | indexer/extension/internaltx/extension.go:111-121 | from every reachable state some schedule saves the next row-bearing height |
| WorkQueue.InternalTxExtension.Initialize | indexer/extension/internaltx/extension.go:111-122 | starting resumes above the highest saved height; the object stays in a reachable state |
| WorkQueue.InternalTxExtension.GetBatchHeights | indexer/extension/internaltx/extension.go:214-240 | the heights are the next tx-bearing ones, as many as batch size and free space allow |
| WorkQueue.InternalTxExtension.ProduceBatchWork | indexer/extension/internaltx/extension.go:243-272 | the whole batch enters the channel in order without ever exceeding its size, or nothing when scraping fails |
| WorkQueue.InternalTxExtension.PopItem | indexer/extension/internaltx/extension.go:58-65 | popping takes the oldest item and is the queue's pop step |
| WorkQueue.InternalTxExtension.ConsumeWork | indexer/extension/internaltx/extension.go:199-209 | consuming saves a row-bearing height or records its failure; the object stays in a reachable state |
| NftFold.BatchIsSequentialIff | indexer/collector/wasm-nft/collect.go:176-238 | for every legal event list the maps written as insert, upsert, delete give the one-by-one table if and only if no insert is lost |
| NftFold.RemintIsLost | indexer/collector/wasm-nft/collect.go:195-197 | a stored token burned and minted again in one block keeps its old row |
| NftFold.CountLaw | indexer/collector/evm-nft/collect.go:238-272 | what nft_count becomes after any block, in all three cases |
| NftFold.CountRightIff | indexer/collector/evm-nft/collect.go:238-272 | for a collection with a token left the count is right if and only if the block minted or burned there or moved only known tokens |
| NftFold.CountsStayRight | indexer/collector/evm-nft/collect.go:196-274 | over any run of blocks that move only known tokens nft_count is the number of stored tokens for every collection with one |
| NftFold.MintMapIff | indexer/collector/evm-nft/collect.go:76-93 | mintMap holds exactly the tokens with a mint that no later burn cancels |
| NftFold.PrefetchAgrees | indexer/collector/evm-nft/prepare.go:92-136 | for every list of logs the tokens prefetched are exactly the keys of mintMap, so each minted collection has been looked up |
| NftFold.EvmMapsHold | indexer/collector/evm-nft/collect.go:44-102 | by the logs alone: a minted token carries the recipient of its last mint log that no burn follows and its prefetched uri, a moved one the recipient of its last transfer that no burn follows, and a burned one has no mint after a burn |
| NftFold.WasmMapsHold | indexer/collector/wasm-nft/collect.go:40-132 | the same by the attributes of wasm events: owner and token_uri of the last surviving mint, recipient of the last surviving transfer |
| NftFold.WrittenRow | indexer/collector/wasm-nft/collect.go:175-237 | the row of a token after a block, column by column |
| NftFold.FilterEvmData | indexer/collector/evm-nft/prepare.go:99-133 | the loop computes the set the agreement theorem is about |
| NftFold.NftSubmodule.FoldWasm | indexer/collector/wasm-nft/collect.go:40-132 | the loop computes the fold of the decoded events, and maps and count updates hold what the attributes say |
| NftFold.NftSubmodule.FoldEvm | indexer/collector/evm-nft/collect.go:44-102 | the loop computes the fold of the decoded logs, and maps and count updates hold what the logs say |
| NftFold.NftSubmodule.WriteMints | indexer/collector/wasm-nft/collect.go:175-197 | in any map order the inserts add exactly the absent, non-blacklisted tokens |
| NftFold.NftSubmodule.WriteTransfers | indexer/collector/wasm-nft/collect.go:199-222 | in any map order each moved token has its new owner, keeping its uri or starting with none |
| NftFold.NftSubmodule.RefreshCounts | indexer/collector/evm-nft/collect.go:247-272 | only collections with a row and a token get a new count |
| NftFold.NftSubmodule.CollectWasm | indexer/collector/wasm-nft/collect.go:18-262 | a wasm block leaves the folded batch in the nft table and the refreshed counts |
| NftFold.NftSubmodule.CollectEvm | indexer/collector/evm-nft/collect.go:23-272 | an evm block does so too, blacklisted mints skipped, or writes nothing exactly when a minted collection has neither name nor place on the blacklist |
| NftFold.PreparedNames | indexer/collector/evm-nft/collect.go:130-138 | once every prefetched collection has its name or is blacklisted, that error is unreachable |
| MoveNft.MintMapIff | indexer/collector/move-nft/collect.go:60-106 | the nested mint map holds an NFT under a collection exactly when some mint there has no later burn there |
| MoveNft.FilterIff | indexer/collector/move-nft/prepare.go:56-96 | the prefetch set holds an NFT exactly when some mint of it has no later burn at all |
| MoveNft.MissingResourceIff | indexer/collector/move-nft/collect.go:160-165 | the missing-resource error is reachable exactly through a burn under another collection |
| MoveNft.PrefetchAgrees | indexer/collector/move-nft/prepare.go:63-93 | when each NFT keeps one collection the prefetched set is exactly what is inserted and the error cannot happen |
| MoveNft.FilterMoveData | indexer/collector/move-nft/prepare.go:63-93 | the loop computes the prefetch set |
| MoveBatch.BatchIsSequentialIff | indexer/collector/move-nft/collect.go:153-235 | for every Move event list, re-mints and objects touched before their mint included, inserts, updates by object address and deletes give the one-by-one table if and only if neither a lost insert nor an earlier move or mutation shows |
| MoveBatch.PreparedSuffices | indexer/collector/move-nft/prepare.go:56-96 | when each NFT keeps one collection the prefetched set is exactly the set of NFTs the batch inserts |
| MoveBatch.MapsHold | indexer/collector/move-nft/collect.go:41-106 | an object is moved or mutated by its last transfer or mutation that no burn follows, and burned if no mint follows a burn |
| MoveBatch.WrittenRow | indexer/collector/move-nft/collect.go:153-235 | the row of an NFT after a block, column by column; a new one belongs to the creator of its collection |
| MoveBatch.MoveNftSubmodule.FoldEvents | indexer/collector/move-nft/collect.go:41-106 | the loop computes the nested mint map and the transfer, mutation and burn maps, and these hold the last surviving event of each object |
| MoveBatch.MoveNftSubmodule.MintedNfts | indexer/collector/move-nft/collect.go:153-194 | it fails exactly when some minted NFT has no prefetched resource |
| MoveBatch.MoveNftSubmodule.WriteTransfers | indexer/collector/move-nft/collect.go:195-208 | in any map order exactly the stored NFTs among the moved objects change owner |
| MoveBatch.MoveNftSubmodule.Collect | indexer/collector/move-nft/collect.go:19-236 | a block leaves the folded batch in the table, or nothing when a resource is missing |
| Address.ParseAccount | util/util.go:12-31 | every parsed address has 20 or 32 bytes; it parses to itself when written in hex if and only if its bytes are canonical, which those from hex always are |
| Address.SameAccountIff | util/util.go:12-31 | two hex spellings name one account if and only if they agree up to case, prefix and leading zeros |
| Address.HexDetourIff | util/util.go:12-31 | an account written in hex and parsed again is the same if and only if its bytes are canonical |
| Address.HexDetourShortens | util/util.go:12-31 | 32 bytes with 12 leading zero bytes come back as the 20 bytes at their end |
| Address.HexParseIff | util/util.go:12-31 | what is not bech32 parses if and only if it is hex digits that fit in 32 bytes; the account has 20 bytes if they fit and else 32, with the digits in lower case at its end |
| Address.SplitIff | indexer/extension/evmret/cleanup.go:41-59 | a value splits into exactly the comma-free parts that join to it |
| Address.IsAddressIff | indexer/extension/evmret/cleanup.go:28-32 | an address as a whole is 0x and 1 to 64 hex digits, or init1 and 38 or 58 lower-case letters and digits |
| Address.ExtractAddress | indexer/extension/evmret/cleanup.go:41-59 | an address-like value yields exactly its own account |
| Edges.RetOnlyDisjointIff | indexer/extension/evmret/cleanup.go:62-113 | the ret cleanup spares every address the collector counts if and only if no ret-only address comes from an odd log word |
| Edges.EmptyLogAddress | indexer/collector/tx/address.go:62-73 | a log with an empty contract address and a zero `ret` breaks that agreement |
| Edges.ExpectedIff | indexer/extension/txaccountcleanup/cleanup.go:83-105 | an account is expected if and only if it is the signer's or that of an address some attribute counts for |
| Edges.RetOnlyIff | indexer/extension/evmret/cleanup.go:62-113 | an address is ret-only if and only if some `ret` shows it and no other attribute does |
| Edges.RetIdsUnexpectedIff | indexer/extension/evmret/cleanup.go:116-146 | for every decoder to 20 or 32 bytes, each row the ret cleanup deletes is one reconciliation treats as extra if and only if no ret-only address is looked up as a stored non-signer account that an odd log word, or after a change in hex any counted place, names |
| Edges.ReconcileExact | indexer/extension/txaccountcleanup/cleanup.go:95-214 | from a snapshot that lost at most unexpected rows, reconciliation leaves exactly the expected rows and flags and touches no other sequence |
| Edges.RetCleanFixesIff | indexer/extension/evmret/cleanup.go:132-146 | the ret cleanup leaves a clean transaction alone if and only if it deletes no expected row |
| Edges.RepairsCommuteIff | indexer/extension/evmret/cleanup.go:149-214 | for every table reconciling last ends in the same table, and cleaning last does so too if and only if no such account is hit |
| Edges.WantedRowGoes | indexer/extension/evmret/cleanup.go:149-214 | a transaction whose expected row the ret cleanup deletes, through an odd log word |
| Edges.ShortenedRowGoes | indexer/extension/evmret/cleanup.go:116-146 | another without any odd log word, through 32 bytes that hex shortens to 20 |
| Edges.CleanGrowsIff | indexer/extension/txaccountcleanup/cleanup.go:90-110 | rows that are the expected ones stay so under a larger dictionary if and only if no address of the transaction is new in it, the signer's aside |
| Edges.CleanIsFixed | indexer/extension/txaccountcleanup/cleanup.go:151-153 | reconciling a clean transaction changes nothing |
| Edges.CollectedIsClean | indexer/collector/tx/collect.go:233-245 | the collector's rows are the expected ones, stay so as the dictionary grows, and are a fixed point of the repair |
| Sweep.SweepRun | indexer/extension/txaccountcleanup/extension.go:76-139 | the sweep invariant holds in every run, with crashes, the ret cleanup, the collector and skipped duplicates interleaved at any point |
| Sweep.SweepRepairsAll | indexer/extension/txaccountcleanup/extension.go:76-139 | once the cursor is at 0 every transaction up to the first start's maximum, so each stored before it, whose wanted rows the ret cleanup spares has exactly the accounts and flags expected under the dictionary of its last fix, and under the present one if and only if none of its addresses has got an account since |
| Sweep.SweepFrame | indexer/extension/txaccountcleanup/cleanup.go:23-72 | the sweep's own steps leave rows outside its transactions as they were |
| Sweep.CursorDescends | indexer/extension/txaccountcleanup/extension.go:104-138 | finishing a batch strictly lowers the saved cursor |
| Cleanup.TxAccountCleanup.ReconcileTx | indexer/extension/txaccountcleanup/cleanup.go:74-217 | the diff and the delete, insert and update statements make up the specified reconciliation |
| Cleanup.TxAccountCleanup.ProcessBatch | indexer/extension/txaccountcleanup/cleanup.go:23-72 | every transaction of the range ends clean and no other row changes |
| Cleanup.TxAccountCleanup.Run | indexer/extension/txaccountcleanup/extension.go:70-140 | from a fresh or saved cursor the sweep ends at 0 with everything below its start clean |
| EvmRet.EvmRetCleanup.FindRetOnlyAddresses | indexer/extension/evmret/cleanup.go:62-113 | the loop returns exactly the addresses that a `ret` attribute shows and no contract, zero-padded topic or other value does |
| EvmRet.RetRowsIff | indexer/extension/evmret/cleanup.go:116-214 | a row is ret-only in a height range if and only if it links a transaction of the range to a non-signer account that only its `ret` attributes name |
| EvmRet.EvmRetCleanup.CleanTx | indexer/extension/evmret/cleanup.go:149-214 | exactly the non-signer rows of ret-only accounts of one transaction go |
| EvmRet.EvmRetCleanup.ProcessBatch | indexer/extension/evmret/cleanup.go:149-214 | exactly the ret-only rows of the height range go; stopping before the status is saved leaves a valid state |
| EvmRet.EvmRetCleanup.Advance | indexer/extension/evmret/extension.go:87-138 | a pass moves the saved height by at most 1000 blocks and nothing ret-only is left up to it |
| EvmRet.EvmRetCleanup.AppendBlock | indexer/collector/tx/collect.go:277-286 | blocks collected meanwhile, with the accounts they create, do not disturb what has been cleaned |
| EvmRet.EvmRetCleanup.Reconciled | indexer/extension/txaccountcleanup/cleanup.go:95-214 | a transaction reconciled meanwhile, from a snapshot that fits, brings no ret-only row back |
| EvmRet.EvmRetCleanup.CatchUp | indexer/extension/evmret/extension.go:87-138 | caught up, every ret-only row of every stored transaction is gone and no other row is |
| Dictionary.InsertAllOk | util/cache/cache.go:104-127 | find-or-insert keeps ids unique, never changes one, and gives every valid account an id |
| Dictionary.RollbackIff | util/cache/cache.go:143-178 | after a rollback the cache agrees with the table if and only if it kept no key of a created account |
| Dictionary.AccountDictionary.CheckCache | util/cache/cache.go:59-76 | cached accounts come with the table's ids, the others are listed once, and leaving the cached ones out does not change what is inserted |
| Dictionary.AccountDictionary.Fetch | util/cache/cache.go:78-102 | the query returns the ids of exactly the known accounts by canonical spelling, or an error on an unparsable one |
| Dictionary.AccountDictionary.InsertEntries | util/cache/cache.go:115-124 | an inserted account is reported with its id exactly if nothing conflicts with its insert, and with 0 otherwise |
| Dictionary.AccountDictionary.RightIff | util/cache/cache.go:115-124 | all reported ids are those of the table if and only if the inserts are free of conflicts |
| Dictionary.AccountDictionary.CreateNew | util/cache/cache.go:104-127 | the table changes as find-or-insert does, every account of the list gets an entry, and the entries are right if and only if no insert conflicts |
| Dictionary.AccountDictionary.Update | util/cache/cache.go:129-141 | results and cache take over exactly the ids found |
| Dictionary.AccountDictionary.GetOrCreateAccountIds | util/cache/cache.go:143-178 | with any evictions the call refines find-or-insert: errors change nothing, lookups return the table's ids, a creating call returns an id for every account, and result and cache agree with the table if and only if no insert conflicts, which canonical spellings never do |
| RichList.ProcessEvmTransferEvents | indexer/extension/richlist/evmrichlist/processor.go:84-119 | for every log list the delta of an account is the total of the parsable logs that pay it less the total of those it pays, and no other account has one |
| RichList.DeltaSum | indexer/extension/richlist/evmrichlist/processor.go:84-119 | for every log list the deltas of a denom sum to mints less burns plus what unparsable topics lose |
| RichList.ConservationIff | indexer/extension/richlist/utils/utils.go:83-90 | mints less burns exactly when the lost amounts balance, in particular when all topics are well formed |
| RichList.BlockBalance | indexer/extension/richlist/scraper/scraper.go:74-107 | in one height each balance grows by its delta, or is the chain's own if its denom went negative and the chain was asked for it |
| RichList.Processor.Initialize | indexer/extension/richlist/extension.go:48-89 | resume above the saved height, start over at the latest block, or wait for one |
| RichList.Processor.UpdateBalanceChanges | indexer/extension/richlist/utils/db.go:107-170 | in any map order each delta is added once, and the denoms reported are those that went negative |
| RichList.Processor.AfterProcess | indexer/extension/richlist/evmrichlist/processor.go:49-78 | in any order the queried balances of exactly the negative denoms replace the stored ones |
| RichList.Processor.ProcessHeight | indexer/extension/richlist/scraper/scraper.go:74-107 | deltas, correction and height marker change in one step |
| RichList.Processor.Run | indexer/extension/richlist/scraper/scraper.go:52-110 | the loop is a run of height transactions up to five below the latest block and keeps the exactly-once invariant |
| RichList.AppliedExactlyOnce | indexer/extension/richlist/scraper/scraper.go:52-110 | for every crash schedule each balance is that of its last correction, or else of the snapshot, plus each later block's deltas up to the marker once, and the marker lags five blocks |
| RichList.SnapshotAtTheTop | indexer/extension/richlist/extension.go:48-89 | a run in which the initial snapshot is at the latest block, without the lag |
| Pagination.CursorExactIff | util/common-handler/common/pagination.go:189-211 | a cursor survives the JSON number exactly at multiples of the float spacing, so up to 2^53 and not one beyond |
| Pagination.DescendingListing | util/common-handler/common/pagination.go:359-378 | while larger sequences are appended, m requests return exactly the first m pages of the rows of the first request, newest first |
| Pagination.AscendingListing | util/common-handler/common/pagination.go:359-378 | oldest first, m requests return a gapless beginning of the last table, m pages of it or, in fewer rows, all first rows |
| Pagination.EdgePageIsPage | api/handler/tx/query_helpers.go:11-45 | paging the edge table and then selecting by sequence is paging the filtered transactions |
| Pagination.EdgePagesAgreeIff | api/handler/tx/query_helpers.go:11-45 | every request gets the same page from both if and only if the edge table lists only stored transactions, or none |
| CursorKey.Base64RoundTrip | util/common-handler/common/pagination.go:111-125 | decoding the standard base64 of any bytes gives them back |
| CursorKey.TestVectors | util/common-handler/common/pagination.go:111-125 | the encoding gives the test vectors of RFC 4648, section 10 |
| CursorKey.KeyRoundTrip | util/common-handler/common/pagination.go:226-257 | a key handed out parses back to its cursor, up to the float, or to its offset exactly, and the two kinds are not confused |
| CursorKey.KeyTexts | util/common-handler/common/pagination.go:226-257 | what a cursor object and an offset look like |
| Rotation.RotationDelay | util/querier/query.go:139-168 | the backoff before a rotation is 14.4 to 17.6 seconds for every random number |
| Rotation.SeededDelay | util/querier/query.go:125-168 | so it is for the generator, whatever its seed |
| Rotation.FindHealthyEndpoint | util/querier/health.go:119-127 | the start endpoint is the first healthy one, or the first |
| Rotation.ExecuteWithEndpointRotation | util/querier/querier.go:63-138 | attempts go cyclically five at a time, never more than 106; with at most 18 endpoints a failure means all were exhausted |
| Rotation.EachExactlyFive | util/querier/querier.go:87-106 | when exhausted each endpoint was tried exactly five times, in a row |

## Left out

- Goroutines: interleavings are event lists over values; the classes hold the critical sections, one at a time, so data races inside a section are not represented.
- CallTree.Accumulator.AddEdges: the address list of a call has a fixed order here; the source ranges over a map, and the edge table does not depend on it.
- TxCollect.TxStore.Collect: block timestamps, fees, JSON payloads, message types and type tags are not part of the rows; the account ids of a transaction are visited in an arbitrary order.
- TxCollect.TxStore.GrepAddressesFromTx: Move "data" attributes and fungible-asset store owners are not modelled, nor is a log that is not JSON, on which the collector refuses the block.
- EvmRet.EvmRetCleanup.CleanTx: a stored transaction whose data does not parse is skipped by the source; the collector stores none.
- EvmRet.EvmRetCleanup.Advance: the count of corrected records is a statistic and is not kept; neither are the deleted and inserted counts of the tx-account cleanup.
- RichList.AppliedExactlyOnce: the balances a correction queries are given by the chain; Wasm and Move rich lists are not modelled.
- RichList.Processor.AfterProcess: the query for all balances of a denom is one map handed in by the chain.
- NftFold.BatchIsSequentialIff: `nft_dict`, `tx_nfts` edges and the pairing of collections are not modelled, and addresses and token ids come decoded.
- NftFold.NftSubmodule.CollectWasm: the set of created collections is given by the prefetch pass; `tx_nfts`, `nft_dict` and pairing are not written.
- NftFold.NftSubmodule.CollectEvm: the creation info of a collection, `tx_nfts`, `nft_dict` and pairing are not written.
- MoveBatch.MoveNftSubmodule.Collect: collection creation, its missing-creator error and the count refresh are not repeated here.
- MoveBatch.BatchIsSequentialIff: an object address stands for its collection and token id, and mints and burns name the collection of their NFT; what happens otherwise is MoveNft.MissingResourceIff.
- CursorKey.KeyRoundTrip: the parser covers what the service hands out; signs, line breaks and other JSON in a key made by hand, and the height and composite NFT cursors, are not modelled.
- Rotation.ExecuteWithEndpointRotation: time is the sum of rotation delays; cancellation and the retries inside one request are not modelled.
- Address.ParseAccount: bech32 decoding is a parameter whose results are 20 or 32 bytes, as the configured address length check has it; the checksum is not modelled.
- Sweep.SweepRepairsAll: a transaction is covered when the ret cleanup spares its wanted rows under each dictionary of the run, the condition of Edges.RepairsCommuteIff; one that is not can lose a wanted row after its fix, as Edges.WantedRowGoes and Edges.ShortenedRowGoes show, without harm to the others.
- InternalTx.StoredTree: hash ids come from an injective dictionary; call columns other than parent, index, sequence and accounts are carried along.
- Dictionary.AccountDictionary.InsertEntries: entries are inserted one after the other and a conflicting one reports 0; how gorm spreads the ids returned by one statement over entries that conflict is not modelled.
- Integers are unbounded; 64-bit overflow of heights, sequences and ids is not modelled.
- The other dictionaries (NFT, message type, type tag, EVM hash) repeat the shape of the account dictionary.
- HTTP handlers, configuration, logging, metrics, SQL text, migrations and the one-off patcher.
- The count statistics of pg_class and the count timeout.
