/** The Tron sync manager (cmd/sync/tron.go): checkpoint resolution on the nested
    block number, and Preload, which stores each block's transactions, its
    transaction infos and the block itself, up to a safe height. */
module Tron {
  import opened Wrappers
  import opened Bson
  import opened Store
  import Eth

  /** A block as the HTTP API gives it: its transaction list and its other fields
      (`blockID`, `block_header`, ...), all as documents. */
  datatype TronBlock = TronBlock(transactions: seq<Document>, fields: Document)

  /** The node: the number of the latest block (`GetJSONBlockByNumber(nil, true)`),
      the block of a height (`GetHTTPBlockByNumber`) and the transaction infos of a
      height (`GetTxInfosByNumber`). `None` is a nil block or number, which the code
      dereferences and panics on; the infos are a slice with no error value, so a nil
      slice is the empty list. */
  datatype TronNode = TronNode(
    latestNumber: Option<uint64>,
    httpBlockByNumber: uint64 -> Option<TronBlock>,
    txInfosByNumber: uint64 -> seq<Document>)

  // ---------------------------------------------------------------------------
  // Documents

  /** A transaction list as a stored field: an empty (nil) list is null. */
  function TxList(txs: seq<Document>): (v: Value)
  {
    if |txs| == 0 then Null else List(seq(|txs|, i requires 0 <= i < |txs| => Doc(txs[i])))
  }

  /** The block as stored: its fields with its transaction list embedded. */
  function BlockDoc(b: TronBlock): Document
  {
    b.fields["transactions" := TxList(b.transactions)]
  }

  /** `block.Transactions = nil`. */
  function Cleared(b: TronBlock): TronBlock
  {
    b.(transactions := [])
  }

  // ---------------------------------------------------------------------------
  // Checkpoint and safe height

  /** The field that the checkpoint sorts on. */
  const NumberPath: seq<string> := ["block_header", "raw_data", "number"]

  /** `d["block_header"].(map[string]any)["raw_data"].(map[string]any)["number"]`:
      each of the two type assertions panics on a value that is not a document. */
  function BlockNumber(d: Document): (r: Result<Value>)
  {
    match Get(d, "block_header")
    case Doc(header) =>
      (match Get(header, "raw_data")
       case Doc(raw) => Ok(Get(raw, "number"))
       case _ => Err(BadType))
    case _ => Err(BadType)
  }

  /** The checkpoint of an empty block collection. */
  const NoBlock: int64 := -1

  /** getLocalLatestTronBlock: -1 for an empty block collection, otherwise the number
      of the block that sorts first on `block_header.raw_data.number` descending,
      decoded by the same four-width switch as the Ethereum checkpoint. */
  function LocalLatest(t: Tables, f: Faults): (r: Result<int64>)
    ensures r.Ok? && |t.blocks| == 0 ==> r.value == -1
    ensures r.Err? ==> r.why == StoreError || r.why == BadType || r.why == UnknownHeight
    ensures r.Ok? && |t.blocks| > 0 ==>
      exists i :: 0 <= i < |t.blocks| && BlockNumber(t.blocks[i]).Ok? && Eth.DecodeHeight(BlockNumber(t.blocks[i]).value) == r
  {
    match LatestDoc(t, f, BlockColl, NumberPath)
    case Err(e) => Err(e)
    case Ok(None) => Ok(NoBlock)
    case Ok(Some(top)) =>
      match BlockNumber(top)
      case Err(e) => Err(e)
      case Ok(number) => Eth.DecodeHeight(number)
  }

  /** `uint64(*remoteLatest) / 1_000 * 1_000`. */
  function SafeHeight(remoteLatest: uint64): uint64
  {
    remoteLatest / 1000 * 1000
  }

  // ---------------------------------------------------------------------------
  // Preload

  /** The transaction infos of height `h`, fetched only for a height above 0 and
      written only when there are any. */
  function InfoPass(t: Tables, f: Faults, node: TronNode, h: uint64): (r: Run)
  {
    if h == 0 then Run(t, Completed)
    else
      var infos := node.txInfosByNumber(h);
      if |infos| == 0 then Run(t, Completed) else WriteMany(Run(t, Completed), f, TxInfoColl, infos)
  }

  /** The writes of height `h` before its block: nothing for a block without
      transactions; otherwise the transactions, then the transaction infos. */
  function TxPass(t: Tables, f: Faults, node: TronNode, h: uint64, txs: seq<Document>): (r: Run)
  {
    if |txs| == 0 then Run(t, Completed)
    else
      var afterTxs := WriteMany(Run(t, Completed), f, TransactionColl, txs);
      if afterTxs.outcome.Aborted? then afterTxs else InfoPass(afterTxs.tables, f, node, h)
  }

  /** One iteration of Preload's loop: fetch the block, write what comes before it,
      then insert the block with its transaction list cleared. */
  function Ingest(t: Tables, f: Faults, node: TronNode, h: uint64): (r: Run)
  {
    match node.httpBlockByNumber(h)
    case None => Run(t, Aborted(RpcError))
    case Some(block) =>
      WriteMany(TxPass(t, f, node, h, block.transactions), f, BlockColl, [BlockDoc(Cleared(block))])
  }

  /** Preload's loop over `lo .. hi - 1`, stopping at the first abort. */
  function IngestRange(t: Tables, f: Faults, node: TronNode, lo: uint64, hi: uint64): (r: Run)
    decreases hi - lo
  {
    if hi <= lo then Run(t, Completed)
    else
      var r := Ingest(t, f, node, lo);
      if r.outcome.Aborted? then r else IngestRange(r.tables, f, node, lo + 1, hi)
  }

  lemma IngestRangeStep(t: Tables, f: Faults, node: TronNode, lo: uint64, hi: uint64)
    requires lo < hi
    ensures var r := Ingest(t, f, node, lo);
      IngestRange(t, f, node, lo, hi) == if r.outcome.Aborted? then r else IngestRange(r.tables, f, node, lo + 1, hi)
  {
  }

  /** Preload's loop once the checkpoint and the remote tip are known: heights
      `uint64(localLatest + 1) .. safeLatest - 1`, the safe height excluded. */
  function PreloadFrom(t: Tables, f: Faults, node: TronNode, localLatest: int64, remoteLatest: uint64): Run
  {
    IngestRange(t, f, node, Eth.StartHeight(localLatest), SafeHeight(remoteLatest))
  }

  /** TronSyncMan.Preload(end): `end` is not used. */
  function PreloadRun(t: Tables, f: Faults, node: TronNode, end: uint64): Run
  {
    match LocalLatest(t, f)
    case Err(e) => Run(t, Aborted(e))
    case Ok(localLatest) =>
      match node.latestNumber
      case None => Run(t, Aborted(RpcError))
      case Some(remoteLatest) => PreloadFrom(t, f, node, localLatest, remoteLatest)
  }

  // ---------------------------------------------------------------------------
  // The methods

  method GetLocalLatest(db: Database) returns (r: Result<int64>)
    ensures r == LocalLatest(db.Contents(), db.fails)
  {
    var count := db.EstimatedDocumentCount(BlockColl);
    if count.Err? {
      return Err(count.why);
    }
    if count.value == 0 {
      return Ok(-1);
    }
    var results := db.FindTopOne(BlockColl, NumberPath);
    if results.Err? {
      return Err(results.why);
    }
    if results.value.None? {
      return Ok(NoBlock);
    }
    var header := Get(results.value.value, "block_header");
    if !header.Doc? {
      return Err(BadType);
    }
    var raw := Get(header.fields, "raw_data");
    if !raw.Doc? {
      return Err(BadType);
    }
    return Eth.DecodeHeight(Get(raw.fields, "number"));
  }

  /** The insert models of a bulk write, one per document, in order. */
  method InsertModels(docs: seq<Document>) returns (models: seq<Document>)
    ensures models == docs
  {
    models := [];
    for i := 0 to |docs|
      invariant models == docs[..i]
    {
      models := models + [docs[i]];
    }
  }

  /** The `if len(txs) > 0 { ... }` block of one height. */
  method WriteTxs(db: Database, node: TronNode, start: uint64, txs: seq<Document>) returns (outcome: Outcome)
    modifies db
    ensures Run(db.Contents(), outcome) == TxPass(old(db.Contents()), db.fails, node, start, txs)
  {
    if |txs| == 0 {
      return Completed;
    }
    var transactionModels := InsertModels(txs);
    var ok := db.BulkWrite(TransactionColl, transactionModels);
    if !ok {
      return Aborted(StoreError);
    }
    if start > 0 {
      var txInfos := node.txInfosByNumber(start);
      if |txInfos| > 0 {
        var txInfoModels := InsertModels(txInfos);
        ok := db.BulkWrite(TxInfoColl, txInfoModels);
        if !ok {
          return Aborted(StoreError);
        }
      }
    }
    return Completed;
  }

  method IngestHeight(db: Database, node: TronNode, start: uint64) returns (outcome: Outcome)
    modifies db
    ensures Run(db.Contents(), outcome) == Ingest(old(db.Contents()), db.fails, node, start)
  {
    var fetched := node.httpBlockByNumber(start);
    if fetched.None? {
      return Aborted(RpcError);
    }
    var block := fetched.value;
    outcome := WriteTxs(db, node, start, block.transactions);
    if outcome.Aborted? {
      return;
    }
    block := block.(transactions := []);
    var ok := db.InsertOne(BlockColl, BlockDoc(block));
    if !ok {
      return Aborted(StoreError);
    }
    return Completed;
  }

  method Preload(db: Database, node: TronNode, end: uint64) returns (outcome: Outcome)
    modifies db
    ensures Run(db.Contents(), outcome) == PreloadRun(old(db.Contents()), db.fails, node, end)
  {
    var localLatest := GetLocalLatest(db);
    if localLatest.Err? {
      return Aborted(localLatest.why);
    }
    var remoteLatest := node.latestNumber;
    if remoteLatest.None? {
      return Aborted(RpcError);
    }
    outcome := PreloadFromCheckpoint(db, node, localLatest.value, remoteLatest.value);
  }

  /** The rest of Preload once the checkpoint and the remote tip are known. */
  method PreloadFromCheckpoint(db: Database, node: TronNode, localLatest: int64, remoteLatest: uint64) returns (outcome: Outcome)
    modifies db
    ensures Run(db.Contents(), outcome) == PreloadFrom(old(db.Contents()), db.fails, node, localLatest, remoteLatest)
  {
    var safeLatest := SafeHeight(remoteLatest);
    outcome := IngestHeights(db, node, Eth.StartHeight(localLatest), safeLatest);
  }

  /** One turn of Preload's loop, stated against the rest of the loop. */
  method IngestStep(db: Database, node: TronNode, h: uint64, hi: uint64, ghost goal: Run) returns (outcome: Outcome, next: uint64)
    requires h < hi && IngestRange(db.Contents(), db.fails, node, h, hi) == goal
    modifies db
    ensures next == h + 1
    ensures outcome.Aborted? ==> Run(db.Contents(), outcome) == goal
    ensures outcome.Completed? ==> IngestRange(db.Contents(), db.fails, node, next, hi) == goal
  {
    IngestRangeStep(db.Contents(), db.fails, node, h, hi);
    outcome := IngestHeight(db, node, h);
    next := h + 1;
  }

  /** The loop of Preload: heights `start .. safeLatest - 1`. */
  method IngestHeights(db: Database, node: TronNode, start: uint64, safeLatest: uint64) returns (outcome: Outcome)
    modifies db
    ensures Run(db.Contents(), outcome) == IngestRange(old(db.Contents()), db.fails, node, start, safeLatest)
  {
    var h: uint64 := start;
    ghost var goal := IngestRange(db.Contents(), db.fails, node, start, safeLatest);
    while h < safeLatest
      invariant IngestRange(db.Contents(), db.fails, node, h, safeLatest) == goal
      decreases safeLatest - h
    {
      var next;
      outcome, next := IngestStep(db, node, h, safeLatest, goal);
      if outcome.Aborted? {
        return;
      }
      h := next;
    }
    return Completed;
  }
}
