/** The Bitcoin sync manager (cmd/sync/btc.go): checkpoint resolution, Preload up to
    a safe height, and Check, which re-walks the stored heights and inserts every
    transaction whose hash is missing. */
module Btc {
  import opened Wrappers
  import opened Bson
  import opened Store

  /** A transaction of `getblock` verbosity 2: its hash and its other fields. */
  datatype BtcTx = BtcTx(hash: string, fields: Document)

  /** The block that `GetBlockVerboseTx` returns: its height, its verbose
      transaction list `Tx`, the alternative list `RawTx`, and its other fields. */
  datatype BtcBlock = BtcBlock(height: int64, tx: seq<BtcTx>, rawTx: seq<BtcTx>, fields: Document)

  /** The node: `GetBestBlock` (its height), `GetBlockHash` and `GetBlockVerboseTx`;
      `None` is a call that returned an error. */
  datatype BtcNode = BtcNode(
    bestBlock: Option<int32>,
    blockHash: int -> Option<string>,
    blockVerboseTx: string -> Option<BtcBlock>)

  /** The block at height `h`, as GetBlockHash followed by GetBlockVerboseTx gives it. */
  function FetchBlock(node: BtcNode, h: int): Option<BtcBlock>
  {
    match node.blockHash(h)
    case None => None
    case Some(hash) => node.blockVerboseTx(hash)
  }

  /** When the verbose list is empty, the raw list takes its place and is cleared. */
  function UseRawTx(b: BtcBlock): (r: BtcBlock)
  {
    if |b.tx| == 0 then b.(tx := b.rawTx, rawTx := []) else b
  }

  /** A transaction as stored: its fields, with its `hash`. */
  function TxDoc(tx: BtcTx): (d: Document)
  {
    tx.fields["hash" := Str(tx.hash)]
  }

  function TxDocs(txs: seq<BtcTx>): (r: seq<Document>)
  {
    seq(|txs|, i requires 0 <= i < |txs| => TxDoc(txs[i]))
  }

  /** A transaction list as a stored field: an empty (nil) list is null. */
  function TxList(txs: seq<BtcTx>): (v: Value)
  {
    if |txs| == 0 then Null else List(seq(|txs|, i requires 0 <= i < |txs| => Doc(TxDoc(txs[i]))))
  }

  /** The block as stored: its fields with its `height` and both transaction lists
      embedded (the struct is inserted whole). */
  function BlockDoc(b: BtcBlock): Document
  {
    b.fields["height" := Int64(b.height)]["tx" := TxList(b.tx)]["rawtx" := TxList(b.rawTx)]
  }

  // ---------------------------------------------------------------------------
  // Checkpoint and safe height

  /** `results[0]["height"].(int64)` with the ok flag discarded: any other type reads 0. */
  function DecodeHeight(v: Value): (r: int64)
    ensures v.Int64? ==> r == v.i64
    ensures !v.Int64? ==> r == 0
  {
    if v.Int64? then v.i64 else 0
  }

  /** getLocalLatestBtcBlock: -1 for an empty block collection; it fails only when the
      store does. */
  function LocalLatest(t: Tables, f: Faults): (r: Result<int64>)
    ensures r.Ok? && |t.blocks| == 0 ==> r.value == -1
    ensures r.Ok? && |t.blocks| > 0 ==> exists i :: 0 <= i < |t.blocks| && DecodeHeight(Get(t.blocks[i], "height")) == r.value
    ensures r.Err? <==> Fails(f, t, Count(BlockColl)) || (|t.blocks| > 0 && Fails(f, t, Find(BlockColl)))
  {
    match LatestDoc(t, f, BlockColl, ["height"])
    case Err(e) => Err(e)
    case Ok(None) => Ok(NoBlock)
    case Ok(Some(top)) => Ok(DecodeHeight(Get(top, "height")))
  }

  const NoBlock: int64 := -1

  /** Go's `/` on integers: the quotient truncated toward zero. */
  function TruncDiv(a: int, b: nat): int
    requires b > 0
  {
    if a >= 0 then a / b else -((-a) / b)
  }

  /** `int64(remoteLatest) / 100 * 100`. */
  function SafeHeight(remoteLatest: int32): int
  {
    TruncDiv(remoteLatest, 100) * 100
  }

  // ---------------------------------------------------------------------------
  // Preload

  /** One iteration of Preload's loop: fetch the block, fall back to the raw list,
      write its transactions (when there are any), then the block. */
  function Ingest(t: Tables, f: Faults, node: BtcNode, h: int): (r: Run)
  {
    match FetchBlock(node, h)
    case None => Run(t, Aborted(RpcError))
    case Some(fetched) =>
      var block := UseRawTx(fetched);
      var afterTxs := if |block.tx| > 0 then WriteMany(Run(t, Completed), f, TransactionColl, TxDocs(block.tx)) else Run(t, Completed);
      WriteMany(afterTxs, f, BlockColl, [BlockDoc(block)])
  }

  /** Preload's loop over `lo .. hi - 1`, stopping at the first abort. */
  function IngestRange(t: Tables, f: Faults, node: BtcNode, lo: int, hi: int): (r: Run)
    decreases hi - lo
  {
    if hi <= lo then Run(t, Completed)
    else
      var r := Ingest(t, f, node, lo);
      if r.outcome.Aborted? then r else IngestRange(r.tables, f, node, lo + 1, hi)
  }

  lemma IngestRangeStep(t: Tables, f: Faults, node: BtcNode, lo: int, hi: int)
    requires lo < hi
    ensures var r := Ingest(t, f, node, lo);
      IngestRange(t, f, node, lo, hi) == if r.outcome.Aborted? then r else IngestRange(r.tables, f, node, lo + 1, hi)
  {
  }

  /** Preload's loop once the checkpoint `localLatest` and the remote tip
      `remoteLatest` are known: heights `int64(localLatest + 1) .. safeLatest`
      inclusive. */
  function PreloadFrom(t: Tables, f: Faults, node: BtcNode, localLatest: int64, remoteLatest: int32): Run
  {
    IngestRange(t, f, node, WrapInt64(localLatest as int + 1), LoopBound(remoteLatest))
  }

  /** The exclusive bound of Preload's loop: one past the safe height. */
  function LoopBound(remoteLatest: int32): int
  {
    SafeHeight(remoteLatest) + 1
  }

  /** BtcSyncMan.Preload(end): `end` is not used. */
  function PreloadRun(t: Tables, f: Faults, node: BtcNode, end: uint64): Run
  {
    match LocalLatest(t, f)
    case Err(e) => Run(t, Aborted(e))
    case Ok(localLatest) =>
      match node.bestBlock
      case None => Run(t, Aborted(RpcError))
      case Some(remoteLatest) => PreloadFrom(t, f, node, localLatest, remoteLatest)
  }

  // ---------------------------------------------------------------------------
  // Check

  /** The outcome of the inner loop of Check, and how many transactions it inserted. */
  datatype TxPass = TxPass(run: Run, inserted: nat)

  /** The inner loop of Check: a transaction is inserted when the lookup of its hash
      finds no document, skipped when it finds one, and any other lookup error
      aborts. On an abort, `inserted` counts the insertions made before it. */
  function InsertMissing(t: Tables, f: Faults, txs: seq<BtcTx>): (p: TxPass)
    decreases |txs|
  {
    if |txs| == 0 then TxPass(Run(t, Completed), 0)
    else match FindByHash(t, f, txs[0].hash)
      case LookupFailed => TxPass(Run(t, Aborted(StoreError)), 0)
      case Found => InsertMissing(t, f, txs[1..])
      case NoDocuments =>
        var r := WriteMany(Run(t, Completed), f, TransactionColl, [TxDoc(txs[0])]);
        if r.outcome.Aborted? then TxPass(r, 0)
        else
          var rest := InsertMissing(r.tables, f, txs[1..]);
          TxPass(rest.run, rest.inserted + 1)
  }

  /** The line that Check logs for a height: inserted and total transaction counts. */
  datatype HeightReport = HeightReport(height: int, inserted: nat, total: nat)

  /** A run of Check so far, with the reports of the heights it finished. */
  datatype CheckRun = CheckRun(run: Run, reports: seq<HeightReport>)

  /** One iteration of Check's loop: fetch the block (with the raw-list fallback),
      insert its missing transactions, then insert the block again. */
  function CheckHeight(t: Tables, f: Faults, node: BtcNode, h: int): (c: CheckRun)
  {
    match FetchBlock(node, h)
    case None => CheckRun(Run(t, Aborted(RpcError)), [])
    case Some(fetched) =>
      var block := UseRawTx(fetched);
      var pass := InsertMissing(t, f, block.tx);
      if pass.run.outcome.Aborted? then CheckRun(pass.run, [])
      else
        var r := WriteMany(pass.run, f, BlockColl, [BlockDoc(block)]);
        if r.outcome.Aborted? then CheckRun(r, [])
        else CheckRun(r, [HeightReport(h, pass.inserted, |block.tx|)])
  }

  /** Check's loop over `lo .. hi - 1`, stopping at the first abort; `done` holds the
      reports of the heights before `lo`. */
  function CheckRange(t: Tables, f: Faults, node: BtcNode, lo: int, hi: int, done: seq<HeightReport>): (c: CheckRun)
    decreases hi - lo
  {
    if hi <= lo then CheckRun(Run(t, Completed), done)
    else
      var c := CheckHeight(t, f, node, lo);
      if c.run.outcome.Aborted? then CheckRun(c.run, done)
      else CheckRange(c.run.tables, f, node, lo + 1, hi, done + c.reports)
  }

  /** BtcSyncMan.Check: heights `0 .. localLatest` inclusive. */
  function CheckAll(t: Tables, f: Faults, node: BtcNode): CheckRun
  {
    match LocalLatest(t, f)
    case Err(e) => CheckRun(Run(t, Aborted(e)), [])
    case Ok(localLatest) => CheckRange(t, f, node, 0, localLatest as int + 1, [])
  }

  // ---------------------------------------------------------------------------
  // The methods

  method GetLocalLatest(db: Database) returns (r: Result<int64>)
    ensures r == LocalLatest(db.Contents(), db.fails)
  {
    var count := db.EstimatedDocumentCount(BlockColl);
    if count.Err? {
      return Err(count.why);
    }
    if count.value == 0 {
      return Ok(-1);
    }
    var results := db.FindTopOne(BlockColl, ["height"]);
    if results.Err? {
      return Err(results.why);
    }
    if results.value.None? {
      return Ok(NoBlock);
    }
    return Ok(DecodeHeight(Get(results.value.value, "height")));
  }

  method GetBlock(node: BtcNode, h: int) returns (block: Option<BtcBlock>)
    ensures block == (if FetchBlock(node, h).Some? then Some(UseRawTx(FetchBlock(node, h).value)) else None)
  {
    var hash := node.blockHash(h);
    if hash.None? {
      return None;
    }
    var fetched := node.blockVerboseTx(hash.value);
    if fetched.None? {
      return None;
    }
    var b := fetched.value;
    if |b.tx| == 0 {
      b := b.(tx := b.rawTx);
      b := b.(rawTx := []);
    }
    return Some(b);
  }

  method IngestHeight(db: Database, node: BtcNode, start: int) returns (outcome: Outcome)
    modifies db
    ensures Run(db.Contents(), outcome) == Ingest(old(db.Contents()), db.fails, node, start)
  {
    var block := GetBlock(node, start);
    if block.None? {
      return Aborted(RpcError);
    }
    var txs := block.value.tx;
    if |txs| > 0 {
      var transactionModels: seq<Document> := [];
      for i := 0 to |txs|
        invariant |transactionModels| == i
        invariant forall j :: 0 <= j < i ==> transactionModels[j] == TxDoc(txs[j])
      {
        transactionModels := transactionModels + [TxDoc(txs[i])];
      }
      assert transactionModels == TxDocs(txs);
      var ok := db.BulkWrite(TransactionColl, transactionModels);
      if !ok {
        return Aborted(StoreError);
      }
    }
    var ok := db.InsertOne(BlockColl, BlockDoc(block.value));
    if !ok {
      return Aborted(StoreError);
    }
    return Completed;
  }

  method Preload(db: Database, node: BtcNode, end: uint64) returns (outcome: Outcome)
    modifies db
    ensures Run(db.Contents(), outcome) == PreloadRun(old(db.Contents()), db.fails, node, end)
  {
    var localLatest := GetLocalLatest(db);
    if localLatest.Err? {
      return Aborted(localLatest.why);
    }
    var remoteLatest := node.bestBlock;
    if remoteLatest.None? {
      return Aborted(RpcError);
    }
    outcome := PreloadFromCheckpoint(db, node, localLatest.value, remoteLatest.value);
  }

  /** The rest of Preload once the checkpoint and the remote tip are known. */
  method PreloadFromCheckpoint(db: Database, node: BtcNode, localLatest: int64, remoteLatest: int32) returns (outcome: Outcome)
    modifies db
    ensures Run(db.Contents(), outcome) == PreloadFrom(old(db.Contents()), db.fails, node, localLatest, remoteLatest)
  {
    outcome := IngestHeights(db, node, WrapInt64(localLatest as int + 1), LoopBound(remoteLatest));
  }

  /** One turn of Preload's loop, stated against the rest of the loop. */
  method IngestStep(db: Database, node: BtcNode, h: int, hi: int, ghost goal: Run) returns (outcome: Outcome, next: int)
    requires h < hi && IngestRange(db.Contents(), db.fails, node, h, hi) == goal
    modifies db
    ensures next == h + 1
    ensures outcome.Aborted? ==> Run(db.Contents(), outcome) == goal
    ensures outcome.Completed? ==> IngestRange(db.Contents(), db.fails, node, next, hi) == goal
  {
    IngestRangeStep(db.Contents(), db.fails, node, h, hi);
    outcome := IngestHeight(db, node, h);
    next := h + 1;
  }

  /** The loop of Preload: heights `start .. safeLatest` inclusive, that is, below
      `hi == safeLatest + 1`. */
  method IngestHeights(db: Database, node: BtcNode, start: int, hi: int) returns (outcome: Outcome)
    modifies db
    ensures Run(db.Contents(), outcome) == IngestRange(old(db.Contents()), db.fails, node, start, hi)
  {
    var h := start;
    ghost var goal := IngestRange(db.Contents(), db.fails, node, start, hi);
    while h < hi
      invariant IngestRange(db.Contents(), db.fails, node, h, hi) == goal
      decreases hi - h
    {
      var next;
      outcome, next := IngestStep(db, node, h, hi, goal);
      if outcome.Aborted? {
        return;
      }
      h := next;
    }
    return Completed;
  }

  method InsertMissingTxs(db: Database, txs: seq<BtcTx>) returns (outcome: Outcome, inserted: nat)
    modifies db
    ensures TxPass(Run(db.Contents(), outcome), inserted) == InsertMissing(old(db.Contents()), db.fails, txs)
  {
    inserted := 0;
    var i := 0;
    while i < |txs|
      invariant 0 <= i <= |txs|
      invariant var rest := InsertMissing(db.Contents(), db.fails, txs[i..]);
        TxPass(rest.run, inserted + rest.inserted) == InsertMissing(old(db.Contents()), db.fails, txs)
    {
      var tx := txs[i];
      var err := db.FindOneByHash(tx.hash);
      if err == LookupFailed {
        return Aborted(StoreError), inserted;
      }
      assert txs[i..][1..] == txs[i + 1..];
      if err == NoDocuments {
        var ok := db.InsertOne(TransactionColl, TxDoc(tx));
        if !ok {
          return Aborted(StoreError), inserted;
        }
        inserted := inserted + 1;
      }
      i := i + 1;
    }
    return Completed, inserted;
  }

  method CheckBlock(db: Database, node: BtcNode, h: int) returns (outcome: Outcome, report: seq<HeightReport>)
    modifies db
    ensures CheckRun(Run(db.Contents(), outcome), report) == CheckHeight(old(db.Contents()), db.fails, node, h)
  {
    var block := GetBlock(node, h);
    if block.None? {
      return Aborted(RpcError), [];
    }
    var inserted;
    outcome, inserted := InsertMissingTxs(db, block.value.tx);
    if outcome.Aborted? {
      return outcome, [];
    }
    var ok := db.InsertOne(BlockColl, BlockDoc(block.value));
    if !ok {
      return Aborted(StoreError), [];
    }
    return Completed, [HeightReport(h, inserted, |block.value.tx|)];
  }

  lemma CheckRangeStep(t: Tables, f: Faults, node: BtcNode, lo: int, hi: int, done: seq<HeightReport>)
    requires lo < hi
    ensures var c := CheckHeight(t, f, node, lo);
      CheckRange(t, f, node, lo, hi, done) ==
        if c.run.outcome.Aborted? then CheckRun(c.run, done) else CheckRange(c.run.tables, f, node, lo + 1, hi, done + c.reports)
  {
  }

  /** One turn of Check's loop, stated against the rest of the loop. */
  method CheckStep(db: Database, node: BtcNode, h: int, hi: int, done: seq<HeightReport>, ghost goal: CheckRun)
    returns (outcome: Outcome, next: int, reports: seq<HeightReport>)
    requires h < hi && CheckRange(db.Contents(), db.fails, node, h, hi, done) == goal
    modifies db
    ensures next == h + 1
    ensures outcome.Aborted? ==> CheckRun(Run(db.Contents(), outcome), done) == goal
    ensures outcome.Completed? ==> CheckRange(db.Contents(), db.fails, node, next, hi, reports) == goal
  {
    CheckRangeStep(db.Contents(), db.fails, node, h, hi, done);
    var report;
    outcome, report := CheckBlock(db, node, h);
    next, reports := h + 1, done + report;
  }

  /** The loop of Check: heights `lo .. hi - 1`. */
  method CheckHeights(db: Database, node: BtcNode, lo: int, hi: int) returns (outcome: Outcome, reports: seq<HeightReport>)
    modifies db
    ensures CheckRun(Run(db.Contents(), outcome), reports) == CheckRange(old(db.Contents()), db.fails, node, lo, hi, [])
  {
    reports := [];
    var h := lo;
    ghost var goal := CheckRange(db.Contents(), db.fails, node, lo, hi, []);
    while h < hi
      invariant CheckRange(db.Contents(), db.fails, node, h, hi, reports) == goal
      decreases hi - h
    {
      var next, nextReports;
      outcome, next, nextReports := CheckStep(db, node, h, hi, reports, goal);
      if outcome.Aborted? {
        return;
      }
      h, reports := next, nextReports;
    }
    return Completed, reports;
  }

  method Check(db: Database, node: BtcNode) returns (outcome: Outcome, reports: seq<HeightReport>)
    modifies db
    ensures CheckRun(Run(db.Contents(), outcome), reports) == CheckAll(old(db.Contents()), db.fails, node)
  {
    var localLatest := GetLocalLatest(db);
    if localLatest.Err? {
      return Aborted(localLatest.why), [];
    }
    outcome, reports := CheckHeights(db, node, 0, localLatest.value as int + 1);
  }
}
