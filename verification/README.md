# Chain synchronisation engine of kylinkit-go, in Dafny

This project models the synchronisation managers of `cmd/sync`, one per chain family:

- **Ethereum** (`cmd/sync/eth.go`). `Preload` resolves the local checkpoint, decodes the remote tip, and ingests heights `localLatest + 1 .. end`. For each height it writes the transactions and the receipts, both stamped with the height, and then the block without its transaction list. `MaintainState` scans the distinct block miners, transaction senders and transaction recipients, fetches each account's balance, code and storage slot 0x0 in one RPC batch, and upserts the account by address.
- **Bitcoin** (`cmd/sync/btc.go`). `Preload` ingests up to the safe height. The safe height is the remote tip truncated to a multiple of 100. A block with an empty `Tx` list falls back to its `RawTx` list. `Check` walks heights `0 .. localLatest` again. It inserts every transaction whose hash lookup finds no document, then inserts the block again, and it reports the inserted and total counts per height.
- **Tron** (`cmd/sync/tron.go`). `Preload` ingests heights below the safe height. The safe height is the remote tip truncated to a multiple of 1000. A block with transactions has them written first, followed by the transaction infos of the height (never at height 0, and only when the node returns some). The block is written last, with its transaction list cleared. The checkpoint sorts on `block_header.raw_data.number` and decodes it with the same four-width switch as the Ethereum checkpoint (`Eth.DecodeHeight`). The loop start is the same `uint64(localLatest + 1)` conversion (`Eth.StartHeight`).

Shared modules:

- `Wrappers`: `Option`, `Result` and the abort reasons. A Go `panic` or `chk(err)` becomes `Aborted(reason)`, and the store keeps whatever was written before the abort.
- `Bson`: documents and values with their integer widths, the wrap-around of Go's integer conversions, and the sort order used by `SetSort`.
- `Hexutil`: the go-ethereum `hexutil` encodings that the Ethereum code relies on (`EncodeBig`, `MustDecodeUint64`, `MustDecodeBig`).
- `Store`: the MongoDB collections as sequences of documents (`Tables`), with an explicit fault oracle: a request fails exactly when `fails(request, size of the collection)` holds. The store operations are pure functions, and the mutable handle is the class `Database`.

Each manager operation is a method over `Database` and the node. Its `ensures` ties the new store state and the outcome to a pure function of the old state, and the `*Lemmas` modules prove what those functions promise.

Points where the code behaves unexpectedly:

- The Ethereum `Preload` loop is bounded by `end`, not by a safe height; the remote tip is decoded and then unused.
- Bitcoin blocks are inserted with their transaction list embedded (`tx`/`rawtx`), not stripped.
- The Tron loop excludes the safe height (`start < safeLatest`), while the Bitcoin loop includes it.
- The Tron transaction-info collection is called `transactionInfotColl` in the code; it is `TxInfoColl` here.
- The Bitcoin safe height truncates toward zero, as Go's `/` does, so a negative tip rounds up, not down.

## Model

| member | source | states |
|---|---|---|
| Bson.WrapInt64Facts | cmd/sync/btc.go:60 | `int64(x)` keeps any value in range and otherwise differs from `x` by a multiple of 2^64 |
| Bson.WrapUint64Facts | cmd/sync/eth.go:56 | `uint64(x)` keeps any value in range and otherwise differs from `x` by a multiple of 2^64 |
| Bson.SortLeOrder | cmd/sync/eth.go:321-324 | the sort order on stored values is transitive and total, so a largest key exists |
| Hexutil.DigitValue | cmd/sync/eth.go:51 | a character has a value iff it is a hex digit of either case; the value is below 16 and is the digit's lower-case text, or that text's upper-case form |
| Hexutil.ParseHex | cmd/sync/eth.go:51 | a digit string parses iff every character is a hex digit, and its value is below 16 to the power of its length |
| Hexutil.CheckNumber | cmd/sync/eth.go:51 | a quantity is accepted iff it has a `0x` prefix, at least one digit and no leading zero; the digits are what follows the prefix |
| Hexutil.DecodeUint64 | cmd/sync/eth.go:51 | a quantity decodes iff it passes the syntax check, its digits parse, and their value is below 2^64; the result is that value |
| Hexutil.DecodeBig | cmd/sync/eth.go:280 | a balance decodes iff it passes the syntax check, has at most 64 digits, and they parse; the result is their value, below 2^256 |
| Hexutil.HexTextShape | cmd/sync/eth.go:308 | the hex text of `n` is non-empty lower-case hex, without a leading zero when `n > 0` |
| Hexutil.ParseHexText | cmd/sync/eth.go:308 | parsing the hex text of `n` gives back `n` |
| Hexutil.DecodeEncodeUint64 | cmd/sync/eth.go:308 | `DecodeUint64(EncodeBig(n)) == n` for every uint64 |
| Hexutil.EncodeBigInjective | cmd/sync/eth.go:308 | distinct integers have distinct `EncodeBig` texts |
| Hexutil.ParseHexCanonical | cmd/sync/eth.go:51 | a canonical digit string is the hex text of the number it parses to |
| Hexutil.EncodeDecodeCanonical | cmd/sync/eth.go:51 | a lower-case quantity that decodes is exactly the encoding of its value |
| Store.Tables.Append | cmd/sync/eth.go:91-98 | appending to one collection adds exactly those documents at its end and leaves every other collection unchanged |
| Store.WriteMany | cmd/sync/eth.go:91-94 | a bulk insert completes iff the run so far completed, the batch is non-empty and the write does not fail; it appends the whole batch or nothing; an earlier abort is kept |
| Store.TopKey | cmd/sync/eth.go:321-324 | the chosen position holds a largest key and is the first position with that key |
| Store.TopIndex | cmd/sync/eth.go:321-324 | the chosen document has a largest sort key and is the first such document |
| Store.FindTop | cmd/sync/eth.go:321-336 | fails iff the find request fails; nothing is found iff the collection is empty; a found document is the first document with a largest key, and no stored key sorts above it |
| Store.LatestDoc | cmd/sync/eth.go:311-336 | an error is a store error; no document iff the collection is empty; otherwise the first document with the largest key |
| Store.Distinct | cmd/sync/eth.go:152 | the result has no duplicates and holds exactly the input's values |
| Store.GroupKeys | cmd/sync/eth.go:151-154 | the group keys are exactly the values the collection's documents take for the field |
| Store.FirstWithAddress | cmd/sync/eth.go:292 | the upsert filter finds the first document with the address, or reports that there is none |
| Store.Database.EstimatedDocumentCount | cmd/sync/eth.go:312-315 | succeeds iff the count request does not fail, and returns the collection's size; the failure is a store error |
| Store.Database.FindTopOne | cmd/sync/eth.go:321-336 | returns the `FindTop` of the current contents |
| Store.Database.FindOneByHash | cmd/sync/btc.go:155-158 | the loop's answer is the hash lookup of the current transactions: failed, found or no documents |
| Store.Database.GroupBy | cmd/sync/eth.go:151-157 | returns the group keys of the current contents |
| Store.Database.CreateIndex | cmd/sync/eth.go:140-142 | reports whether the index request fails, and changes no document |
| Store.Database.BulkWrite | cmd/sync/eth.go:91-94 | the new contents and outcome are those of `WriteMany` on the old contents |
| Store.Database.InsertOne | cmd/sync/eth.go:98-99 | the new contents and outcome are those of a one-document `WriteMany` |
| Store.Database.UpdateOneUpsert | cmd/sync/eth.go:290-295 | on success the state collection becomes the upsert of the account; otherwise nothing changes |
| Eth.ToBlockNumArg | cmd/sync/eth.go:300-309 | nil gives `latest`, -1 gives `pending`, a non-negative number a `0x` text and any other negative number a `-0x` text |
| EthLemmas.ToBlockNumArgRoundTrip | cmd/sync/eth.go:58 | the tag of height `n` decodes back to `n` |
| EthLemmas.ToBlockNumArgInjective | cmd/sync/eth.go:300-309 | distinct arguments give distinct tags, so each height asks for its own block |
| Eth.DecodeHeight | cmd/sync/eth.go:337-348 | succeeds exactly on the four integer widths (other values abort with UnknownHeight), keeps the value, and wraps a uint64 at or above 2^63 to `v - 2^64` |
| Eth.LocalLatest | cmd/sync/eth.go:311-350 | -1 for an empty collection; errors are store errors or an unknown height type; otherwise the decoded height of some stored block |
| EthLemmas.LocalLatestIsMaximum | cmd/sync/eth.go:321-339 | with integer heights and no store faults, the checkpoint is the largest stored height and is attained |
| EthLemmas.EmptyStoreStartsAtZero | cmd/sync/eth.go:317-319 | an empty block collection gives -1, and ingestion starts at height 0 |
| Eth.GetLocalLatest | cmd/sync/eth.go:311-350 | returns `LocalLatest` of the current contents |
| Eth.DecodeHeader | cmd/sync/eth.go:61-66 | `number` and `timestamp` are hex strings decoding to the height and time, and `transactions` is the list of transactions |
| Eth.TxModels | cmd/sync/eth.go:80-84 | defined iff every transaction is a document; then one model per transaction, each stamped with the height |
| Eth.WithHeight | cmd/sync/eth.go:86-89 | one receipt per receipt, each stamped with the height |
| Eth.BlockDoc | cmd/sync/eth.go:62-97 | the stored block has the height and time fields, has no `transactions`, and keeps every other field |
| Eth.Ingest | cmd/sync/eth.go:57-99 | one height touches neither txInfos nor states; an abort stores no block; completion stores one block and as many transactions as receipts |
| Eth.IngestRange | cmd/sync/eth.go:56-102 | the loop touches neither txInfos nor states |
| Eth.PreloadRun | cmd/sync/eth.go:38-103 | Preload touches neither txInfos nor states |
| Eth.BuildTxModels | cmd/sync/eth.go:77-84 | the loop builds `TxModels` (or fails on a non-document transaction) |
| Eth.SetHeights | cmd/sync/eth.go:86-89 | the loop builds `WithHeight` |
| Eth.IngestHeight | cmd/sync/eth.go:57-99 | the new store and the outcome are those of `Ingest` of the old store |
| Eth.Preload | cmd/sync/eth.go:38-103 | the new store and the outcome are those of `PreloadRun` of the old store |
| Eth.IngestStep | cmd/sync/eth.go:56-102 | one turn moves to the next height and keeps the rest of the loop equal to its goal |
| Eth.IngestHeights | cmd/sync/eth.go:56-102 | the loop's new store and outcome are those of `IngestRange(start, end + 1)` |
| EthLemmas.IngestWrites | cmd/sync/eth.go:66-99 | a completed height had its block, header and receipts, as many receipts as transactions, and appended exactly the stamped transactions, the stamped receipts and the block |
| EthLemmas.IngestWritesAt | cmd/sync/eth.go:76-98 | the same writes, given the block, header and receipts of the height |
| EthLemmas.IngestWritesInOrder | cmd/sync/eth.go:76-98 | an aborted height stores no block, and leaves transactions and receipts untouched, or with its stamped transactions appended, or with those and then its stamped receipts; receipts are never written without the transactions |
| EthLemmas.ReceiptMismatchWritesNothing | cmd/sync/eth.go:71-74 | a receipt count that differs from the transaction count aborts with nothing written |
| EthLemmas.StampedWrites | cmd/sync/eth.go:82-98 | stamped transactions and receipts written with a block carry that block's height |
| EthLemmas.IngestStampsHeight | cmd/sync/eth.go:61-98 | for a node that numbers its blocks truthfully, a completed height appends one block of that height without transactions, and every transaction and receipt written with it carries the same height |
| EthLemmas.AppendedChain | cmd/sync/eth.go:56 | a block of height `lo` followed by blocks from `lo + 1` is a run of blocks from `lo` |
| EthLemmas.IngestBlock | cmd/sync/eth.go:57-99 | one height appends one block of that height, or no block |
| EthLemmas.IngestRangeAscending | cmd/sync/eth.go:56-102 | the loop keeps the stored blocks and appends consecutive heights from its start, all of them when it completes |
| EthLemmas.PreloadShape | cmd/sync/eth.go:45-56 | Preload either runs the loop from the checkpoint's successor to `end`, or aborts with nothing written |
| EthLemmas.PreloadHeights | cmd/sync/eth.go:38-103 | Preload appends the heights `localLatest + 1 .. end` in order (all of them when it completes) and touches neither txInfos nor states |
| EthLemmas.PreloadCaughtUp | cmd/sync/eth.go:56 | a checkpoint at or past `end` leaves the store as it was |
| EthLemmas.NonNegativeHeight | cmd/sync/eth.go:337-348 | a stored height that decodes to a non-negative number is an integer height of that value |
| EthLemmas.AppendedIntegerHeights | cmd/sync/eth.go:56-99 | blocks appended from consecutive heights below 2^63 keep every stored height an integer one |
| EthLemmas.AppendedKeepsLatest | cmd/sync/eth.go:311-348 | appending such blocks to a store of integer heights never lowers the checkpoint |
| EthLemmas.PreloadAppendsUpTo | cmd/sync/eth.go:45-99 | whatever aborts, Preload appends consecutive heights from the checkpoint's successor, none above `end` |
| EthLemmas.CheckpointNeverDecreases | cmd/sync/eth.go:38-103 | with integer heights, no count or find faults, a truthful node and `end` below 2^63, the checkpoint after Preload is at least the one before |
| EthLemmas.GapFreeLatest | cmd/sync/eth.go:311-348 | when the stored heights are exactly 0, 1, …, n-1 in order, the checkpoint is n-1 |
| EthLemmas.AppendedGapFree | cmd/sync/eth.go:45-99 | appending blocks of heights from n on to a store of the heights 0 … n-1 leaves the heights 0 … m-1, each once |
| EthLemmas.ResumeAfterLast | cmd/sync/eth.go:45-99 | once the checkpoint is the last of the heights 0 … n-1, Preload leaves a store of exactly the heights 0 … m-1 |
| EthLemmas.PreloadKeepsGapFree | cmd/sync/eth.go:38-103 | whatever aborts, Preload on a store holding exactly the heights 0 … n-1 leaves one holding exactly 0 … m-1, each height once |
| EthLemmas.UpsertEffect | cmd/sync/eth.go:290-295 | an upsert keeps addresses unique, leaves a document for the address carrying the new fields, and keeps every other address |
| EthLemmas.FirstWithAddressAt | cmd/sync/eth.go:292 | the filter finds the first document holding the address |
| EthLemmas.UpsertTwice | cmd/sync/eth.go:290-295 | a second `$set` upsert of the same address, with at least the same keys, overrides the first |
| EthLemmas.UpsertAccountTwice | cmd/sync/eth.go:240-298 | upserting an account twice leaves the store as the second upsert alone would |
| Eth.AccountCalls | cmd/sync/eth.go:243-269 | the batch has three calls, each on the address at the `latest` tag |
| Eth.AccountDoc | cmd/sync/eth.go:282-288 | the account document has the address, hex balance, code and storage fields, keyed by the address |
| Eth.FetchAccount | cmd/sync/eth.go:241-288 | a fetched account is keyed by its address; failures are RPC or hex errors |
| Eth.UpsertAccount | cmd/sync/eth.go:240-298 | only the state collection can change, and an abort changes nothing |
| Eth.UpsertKeys | cmd/sync/eth.go:161-178 | a cursor loop changes neither blocks nor transactions |
| Eth.InitiallyUpsertAccount | cmd/sync/eth.go:240-298 | the new store and the outcome are those of `UpsertAccount` |
| Eth.UpsertAll | cmd/sync/eth.go:161-178 | the loop's new store and outcome are those of `UpsertKeys` |
| Eth.ScanAndUpsert | cmd/sync/eth.go:151-178 | aggregation followed by the cursor loop, as `ScanPass` |
| Eth.MaintainState | cmd/sync/eth.go:134-238 | the new store and the outcome are those of the three scans in order |
| EthLemmas.UpsertKeysKeepsAddresses | cmd/sync/eth.go:161-178 | a cursor loop keeps addresses unique and every stored address present, and touches neither receipts nor txInfos |
| EthLemmas.UpsertKeysCovers | cmd/sync/eth.go:161-178 | a completed cursor loop leaves a state document for every key |
| EthLemmas.ScanPassKeepsAddresses | cmd/sync/eth.go:151-178 | a scan keeps addresses unique and every stored address present |
| EthLemmas.ScanPassCovers | cmd/sync/eth.go:151-178 | a completed scan leaves a state document for the field of every scanned document |
| EthLemmas.CoveredKept | cmd/sync/eth.go:180-198 | a later scan keeps an earlier scan's coverage |
| EthLemmas.MaintainStateKeepsAddresses | cmd/sync/eth.go:134-238 | MaintainState keeps addresses unique and every stored address present |
| EthLemmas.MaintainStateCovers | cmd/sync/eth.go:144-237 | a completed MaintainState has a state document for every miner, sender and recipient |
| EthLemmas.NullRecipientAborts | cmd/sync/eth.go:209-226 | a stored transaction with a null `to` (a contract creation) makes MaintainState abort on the `.(string)` assertion |
| Btc.DecodeHeight | cmd/sync/btc.go:117 | an int64 height is kept; any other value reads as 0 |
| Btc.LocalLatest | cmd/sync/btc.go:90-120 | -1 for an empty collection; otherwise the decoded height of some stored block; fails iff the count fails, or the find fails on a non-empty collection |
| Btc.GetLocalLatest | cmd/sync/btc.go:90-120 | returns `LocalLatest` of the current contents |
| Btc.GetBlock | cmd/sync/btc.go:61-69 | the fetched block, with the raw-list fallback applied |
| Btc.IngestHeight | cmd/sync/btc.go:61-84 | the new store and the outcome are those of `Ingest` |
| Btc.Preload | cmd/sync/btc.go:45-88 | the new store and the outcome are those of `PreloadRun` |
| Btc.PreloadFromCheckpoint | cmd/sync/btc.go:58-87 | the rest of Preload is `PreloadFrom` |
| Btc.IngestStep | cmd/sync/btc.go:60-87 | one turn moves to the next height and keeps the rest of the loop equal to its goal |
| Btc.IngestHeights | cmd/sync/btc.go:60-87 | the loop's new store and outcome are those of `IngestRange` |
| BtcLemmas.UseRawTxEffect | cmd/sync/btc.go:66-69 | a block with transactions is kept; otherwise its raw list becomes its list and the raw list is emptied |
| BtcLemmas.TxDocsEffect | cmd/sync/btc.go:75-77 | one document per transaction, in order, carrying its hash and fields |
| BtcLemmas.TxListEffect | cmd/sync/btc.go:83 | an embedded list is null iff empty; otherwise it holds the transaction documents in order |
| BtcLemmas.BlockDocEffect | cmd/sync/btc.go:83 | the stored block carries its int64 height, both embedded lists and every other field |
| BtcLemmas.StoredRawTxIsNull | cmd/sync/btc.go:66-69 | after the fallback, the stored `rawtx` is null and `tx` holds the raw list |
| BtcLemmas.IngestWrites | cmd/sync/btc.go:61-84 | one height writes all of its transactions or none and then the block; an abort is an RPC or store error and stores no block; other collections are untouched |
| BtcLemmas.TxWriteFailureStoresNoBlock | cmd/sync/btc.go:79-84 | a failed transaction bulk write aborts before the block is stored |
| BtcLemmas.IngestBlock | cmd/sync/btc.go:61-84 | for an honest node, one height appends one block of that height, or no block |
| BtcLemmas.IngestRangeFrame | cmd/sync/btc.go:60-87 | the loop touches neither receipts, txInfos nor states |
| BtcLemmas.IngestRangeAscending | cmd/sync/btc.go:60-87 | the loop keeps the stored blocks and appends consecutive heights from its start, all of them when it completes |
| BtcLemmas.SafeHeightBounds | cmd/sync/btc.go:58 | the safe height is a multiple of 100 within 100 of the tip: at most the tip when it is non-negative, at least the tip when it is negative |
| BtcLemmas.LocalLatestIsMaximum | cmd/sync/btc.go:90-120 | with int64 heights and no count or find faults, the checkpoint is the largest stored height and some block has it |
| BtcLemmas.AppendedKeepsLatest | cmd/sync/btc.go:90-120 | appending blocks of consecutive heights (from 0 on an empty store) to a store of int64 heights never lowers the checkpoint |
| BtcLemmas.PreloadShape | cmd/sync/btc.go:51-60 | a checkpoint error or a failed tip request aborts with nothing written; otherwise Preload is the loop from the checkpoint |
| BtcLemmas.PreloadIgnoresEnd | cmd/sync/btc.go:45 | the `end` argument has no effect |
| BtcLemmas.PreloadHeights | cmd/sync/btc.go:58-87 | the loop appends the heights `start .. safe` in order, all of them when it completes, and touches no other collection |
| BtcLemmas.PreloadCaughtUp | cmd/sync/btc.go:60 | a checkpoint at or past the safe height (below MaxInt64) writes nothing |
| BtcLemmas.PreloadAppends | cmd/sync/btc.go:51-87 | whatever aborts, Preload appends consecutive heights from the checkpoint's successor |
| BtcLemmas.CheckpointNeverDecreases | cmd/sync/btc.go:45-88 | with int64 heights, no count or find faults and an honest node, the checkpoint after Preload is at least the one before |
| BtcLemmas.GapFreeLatest | cmd/sync/btc.go:90-120 | when the stored heights are exactly 0, 1, …, n-1 in order, the checkpoint is n-1 |
| BtcLemmas.PreloadKeepsGapFree | cmd/sync/btc.go:45-88 | whatever aborts, Preload on a store holding exactly the heights 0 … n-1 leaves one holding exactly 0 … m-1, each height once |
| BtcLemmas.PreloadWrapsAtMaximum | cmd/sync/btc.go:60 | a checkpoint of MaxInt64 wraps its successor, and the loop starts at MinInt64 |
| BtcLemmas.FreshStoreLowTip | cmd/sync/btc.go:58-60 | an empty store with a tip below 100 ingests height 0 and nothing else |
| BtcLemmas.HasHashKept | cmd/sync/btc.go:161 | inserting more transactions keeps the stored hashes |
| BtcLemmas.InsertMissingStep | cmd/sync/btc.go:154-164 | one transaction of Check's inner loop: a lookup error or an insert failure aborts, a hit skips, a miss inserts and counts |
| BtcLemmas.InsertMissingEffect | cmd/sync/btc.go:153-165 | the inner loop only grows the transactions, by exactly the count it reports (at most the number of transactions); an abort is a store error |
| BtcLemmas.InsertMissingAddsOnlyMissing | cmd/sync/btc.go:154-164 | every inserted document is the document of a block transaction whose hash was not stored before |
| BtcLemmas.InsertMissingCovers | cmd/sync/btc.go:154-164 | after a completed inner loop, every block transaction's hash is stored |
| BtcLemmas.InsertMissingPresent | cmd/sync/btc.go:154-164 | when every hash is already stored and no lookup fails, the inner loop completes, writes nothing and inserts nothing |
| BtcLemmas.InsertMissingAllStored | cmd/sync/btc.go:154-164 | when every hash is already stored, the inner loop writes nothing and inserts nothing, whatever the faults, and it completes iff no lookup fails |
| Btc.InsertMissingTxs | cmd/sync/btc.go:153-165 | the inner loop's new store, outcome and count are those of `InsertMissing` |
| Btc.CheckBlock | cmd/sync/btc.go:143-169 | one height of Check, as `CheckHeight` |
| Btc.CheckStep | cmd/sync/btc.go:142-170 | one turn moves to the next height and keeps the rest of the loop equal to its goal |
| Btc.CheckHeights | cmd/sync/btc.go:142-170 | Check's loop, as `CheckRange` |
| Btc.Check | cmd/sync/btc.go:125-171 | the new store, outcome and reports are those of `CheckAll` |
| BtcLemmas.CheckHeightEffect | cmd/sync/btc.go:143-169 | a completed height reports its height and inserted/total counts and inserts the block again; an abort reports nothing and stores no block |
| BtcLemmas.LookupErrorAborts | cmd/sync/btc.go:155-158 | a failed lookup of the first transaction aborts with nothing written |
| BtcLemmas.CheckTwice | cmd/sync/btc.go:153-165 | checking a height a second time, whatever the store's faults, leaves the transactions as they are and inserts none |
| BtcLemmas.CheckRangeReports | cmd/sync/btc.go:142-170 | Check's loop reports each finished height in order, inserts one block per report, finishes every height when it completes, and touches no other collection |
| BtcLemmas.CheckAllReports | cmd/sync/btc.go:132-142 | Check walks heights `0 .. localLatest` with those guarantees |
| BtcLemmas.CheckHeightExtends | cmd/sync/btc.go:153-168 | one height of Check only appends to the transactions |
| BtcLemmas.CheckRangeCovers | cmd/sync/btc.go:142-170 | Check's loop only appends to the transactions, and a completed loop leaves every transaction of its heights stored |
| BtcLemmas.CheckHeightAllStored | cmd/sync/btc.go:142-168 | one height whose transactions are all stored leaves the transactions as they are and reports nothing inserted, whatever the faults |
| BtcLemmas.CheckRangeAllStored | cmd/sync/btc.go:142-170 | over heights whose transactions are all stored, Check's loop leaves the transactions as they are and reports nothing inserted, whatever the faults |
| BtcLemmas.CheckRangeTwice | cmd/sync/btc.go:142-170 | running Check's loop again on the store a completed run left inserts no transaction |
| BtcLemmas.CheckHeightBlock | cmd/sync/btc.go:143-168 | for an honest node, one height of Check appends one block of that height or none |
| BtcLemmas.CheckRangeAscending | cmd/sync/btc.go:142-170 | for an honest node, Check's loop appends blocks of consecutive heights from its start |
| BtcLemmas.AppendedBelow | cmd/sync/btc.go:142-170 | blocks of heights `0, 1, ...`, at most `bound + 1` of them, keep every height at most `bound` |
| BtcLemmas.RecheckedKeepsLatest | cmd/sync/btc.go:132-142 | inserting again the blocks of heights `0 .. localLatest` leaves the checkpoint where it was |
| BtcLemmas.CheckAllTwice | cmd/sync/btc.go:125-171 | with int64 heights, no count or find faults and an honest node, Check run again on the store a completed Check left resolves the same checkpoint, leaves the transactions as they are and inserts none |
| Tron.LocalLatest | cmd/sync/tron.go:123-161 | -1 for an empty collection; errors are store errors, a non-document header or an unknown number type; otherwise the decoded number of some stored block |
| Tron.GetLocalLatest | cmd/sync/tron.go:123-161 | returns `LocalLatest` of the current contents |
| Tron.InsertModels | cmd/sync/tron.go:71-74 | one insert model per document, in order |
| Tron.WriteTxs | cmd/sync/tron.go:54-81 | the transaction and info writes of one height, as `TxPass` |
| Tron.IngestHeight | cmd/sync/tron.go:49-85 | the new store and the outcome are those of `Ingest` |
| Tron.Preload | cmd/sync/tron.go:33-89 | the new store and the outcome are those of `PreloadRun` |
| Tron.PreloadFromCheckpoint | cmd/sync/tron.go:46-88 | the rest of Preload is `PreloadFrom` |
| Tron.IngestStep | cmd/sync/tron.go:48-88 | one turn moves to the next height and keeps the rest of the loop equal to its goal |
| Tron.IngestHeights | cmd/sync/tron.go:48-88 | the loop's new store and outcome are those of `IngestRange` |
| TronLemmas.BlockDocEffect | cmd/sync/tron.go:83-84 | the stored block has a null transaction list, keeps every other field and keeps its number |
| TronLemmas.TxListEffect | cmd/sync/tron.go:83 | an embedded list is null iff empty; otherwise it holds the transactions in order |
| TronLemmas.BlockNumberIsSortKey | cmd/sync/tron.go:134-149 | the number the checkpoint decodes is the value it sorts on |
| TronLemmas.LocalLatestIsMaximum | cmd/sync/tron.go:133-160 | with integer numbers and no store faults, the checkpoint is the largest stored number and is attained |
| TronLemmas.HeaderlessStoreAborts | cmd/sync/tron.go:149 | when no stored block has a document header, the type assertion aborts |
| TronLemmas.EmptyStoreStartsAtZero | cmd/sync/tron.go:129-131 | an empty block collection gives -1, and ingestion starts at height 0 |
| TronLemmas.SafeHeightBounds | cmd/sync/tron.go:46 | the safe height is a multiple of 1000, at most the tip and within 1000 of it |
| TronLemmas.IngestWritesInOrder | cmd/sync/tron.go:50-85 | a height writes its transactions, then its infos, then its block; an abort leaves a prefix of that order; receipts and states are never touched |
| TronLemmas.IngestWrites | cmd/sync/tron.go:50-85 | a completed height appended its block with a null list, its transactions, and its infos (none at height 0 or without transactions) |
| TronLemmas.TxInfosOnlyWhenNeeded | cmd/sync/tron.go:54-68 | a block without transactions, or height 0, never asks for transaction infos and writes none |
| TronLemmas.EmptyInfosStillStoreBlock | cmd/sync/tron.go:68-83 | an empty or nil info slice writes no infos, and once the transactions are written the block is still stored |
| TronLemmas.IngestBlock | cmd/sync/tron.go:50-85 | for an honest node, one height appends one block of that number, or no block |
| TronLemmas.IngestRangeAscending | cmd/sync/tron.go:48-88 | the loop keeps the stored blocks and appends consecutive numbers from its start, all of them when it completes |
| TronLemmas.IngestRangeAgrees | cmd/sync/tron.go:48-88 | the loop depends only on the node's answers for heights inside its range |
| TronLemmas.PreloadShape | cmd/sync/tron.go:40-48 | a checkpoint error or a failed tip request aborts with nothing written; otherwise Preload is the loop from the checkpoint |
| TronLemmas.PreloadIgnoresEnd | cmd/sync/tron.go:33 | the `end` argument has no effect |
| TronLemmas.PreloadHeights | cmd/sync/tron.go:46-88 | Preload appends the numbers from `uint64(localLatest + 1)` below the safe height in order, all of them when it completes |
| TronLemmas.PreloadStopsBeforeSafeHeight | cmd/sync/tron.go:48 | Preload never looks at the safe height or anything above it |
| TronLemmas.PreloadCaughtUp | cmd/sync/tron.go:48 | a checkpoint whose successor is at or past the safe height writes nothing |
| TronLemmas.FreshStoreLowTip | cmd/sync/tron.go:46-48 | an empty store with a tip below 1000 writes nothing, since the safe height is 0 |
| TronLemmas.NegativeCheckpointSkips | cmd/sync/tron.go:48 | a checkpoint below -1 converts to a start near 2^64, and Preload writes nothing |
| TronLemmas.AppendedIntegerNumbers | cmd/sync/tron.go:48-88 | blocks appended with consecutive numbers keep every stored number an integer one |
| TronLemmas.KeptBelowLatest | cmd/sync/tron.go:123-160 | a block kept from the old store is numbered at most the new checkpoint |
| TronLemmas.AppendedKeepsLatest | cmd/sync/tron.go:123-160 | appending such blocks to a store of integer numbers never lowers the checkpoint |
| TronLemmas.CheckpointNeverDecreases | cmd/sync/tron.go:33-89 | with integer numbers, no count or find faults and an honest node, the checkpoint after Preload is at least the one before |
| TronLemmas.GapFreeLatest | cmd/sync/tron.go:123-160 | when the stored block numbers are exactly 0, 1, …, n-1 in order, the checkpoint is n-1 |
| TronLemmas.AppendedGapFree | cmd/sync/tron.go:48-88 | appending blocks numbered from n on to a store of the numbers 0 … n-1 leaves the numbers 0 … m-1, each once |
| TronLemmas.PreloadFromKeepsGapFree | cmd/sync/tron.go:46-88 | the loop started after the last number of such a store keeps it holding exactly 0 … m-1 |
| TronLemmas.PreloadKeepsGapFree | cmd/sync/tron.go:33-89 | whatever aborts, Preload on a store holding exactly the numbers 0 … n-1 leaves one holding exactly 0 … m-1, each number once |

## Left out

- BSON encoding by the driver is not modelled (for example, a uint64 stored as int64). In particular the `omitempty` tags of the btcd block and transaction structs are not modelled: an empty `tx` or `rawtx` list and an empty `hash` are stored as null or as an empty string, where the driver would leave the field out. Stored documents are the Go values as written, and value order on sort is simplified to a type rank then the numeric value, with ties going to the first inserted document.
- The float `balance` field (`weiToEther`) of an account is not modelled, because the model has no floating point. The account document keeps `address`, `hexBalance`, `code` and `storage`.
- A partially applied bulk write is not modelled: a bulk insert writes its whole batch or nothing.
- Eth.IngestHeights: when `end` is the largest uint64, the Go loop counter wraps and the loop never ends; the model stops after that height.
- Btc.CheckAll: when the checkpoint is the largest int64, the Go loop counter wraps and the loop never ends; the model stops after that height.
- Ordering and cursor batching of the aggregation are not modelled. Group keys come in first-occurrence order, and a cursor or decode error (`log.Fatal`) is not modelled because it exits the process.
- The JSON marshal and unmarshal round trip of each Tron transaction is not modelled; transactions are opaque documents.
- Tron block fields come from the tronetl structs, whose struct tags are not part of this model. The model assumes the number sits at `block_header.raw_data.number`, and stores a cleared transaction list as null.
- The Tron RPC calls return no error value in the code. A nil block or tip number, which the code would dereference and panic on, is modelled as an abort with RpcError. `GetTxInfosByNumber` returns a slice that the code only measures: a nil slice is the empty list, so no infos are written and the block is still stored. What the tronetl client does on a failed HTTP request is not part of this model.
- RPC client setup, including the Tron client's fixed URL, is not modelled. Logging is not modelled.
- `main.go` (flag parsing and choosing a manager) and `cmd/dbtools` are not modelled.
- The stubs `Sync`, Bitcoin and Tron `MaintainState`, Ethereum and Tron `Check` and `updateAccounts` (both chains) have no effect worth modelling. `updateAccounts` is never called.
- The `hexutil`, `mongo-driver`, `btcd` and `tronetl` libraries are not part of this model. Their behaviour is modelled from their documented contracts: `Hexutil` for the encodings, and `Store` for the collection operations and their failures.
- The ignored error of `CreateOne` in MaintainState is modelled as a request that changes nothing either way.
