/** The Ethereum-family sync manager (cmd/sync/eth.go): checkpoint resolution,
    Preload (blocks, transactions and receipts per height) and MaintainState
    (account snapshots for every miner, sender and recipient seen in the store). */
module Eth {
  import opened Wrappers
  import opened Bson
  import opened Hexutil
  import opened Store

  /** One element of a JSON-RPC batch. */
  datatype RpcCall = RpcCall(name: string, args: seq<string>)

  /** The node, as the calls the engine makes to it. `None` is a call that returned
      an error. `batchSent` is false when `BatchCallContext` itself fails; `call` is
      the result or the error of one element of a batch that was sent. */
  datatype EthNode = EthNode(
    getBlockByNumber: (string, bool) -> Option<Document>,
    getBlockReceipts: string -> Option<seq<Document>>,
    batchSent: seq<RpcCall> -> bool,
    call: RpcCall -> Option<string>)

  /** The block tag for an optional block number: `latest` for none, `pending` for
      -1, the `0x` quantity otherwise. */
  function ToBlockNumArg(number: Option<int>): (r: string)
    ensures number.None? ==> r == "latest"
    ensures number == Some(-1) ==> r == "pending"
    ensures number.Some? && number.value >= 0 ==> |r| >= 3 && r[..2] == "0x"
    ensures number.Some? && number.value < -1 ==> |r| >= 4 && r[..3] == "-0x"
  {
    if number.None? then "latest"
    else if number.value == -1 then "pending"
    else
      HexTextShape(if number.value >= 0 then number.value else -number.value);
      EncodeBig(number.value)
  }

  // ---------------------------------------------------------------------------
  // Checkpoint

  /** The type switch on the stored `height`: the four integer widths are accepted
      and converted to int64, anything else (a missing field included) is
      "unknown height". */
  function DecodeHeight(v: Value): (r: Result<int64>)
    ensures r.Ok? <==> v.Int64? || v.Int32? || v.Uint32? || v.Uint64?
    ensures r.Err? ==> r.why == UnknownHeight
    ensures r.Ok? && !(v.Uint64? && v.u64 >= 0x8000_0000_0000_0000) ==> r.value as real == NumericValue(v)
    ensures r.Ok? && v.Uint64? && v.u64 >= 0x8000_0000_0000_0000 ==> r.value == v.u64 - TwoTo64
  {
    match v
    case Int64(h) => Ok(h)
    case Int32(h) => Ok(h)
    case Uint32(h) => Ok(h)
    case Uint64(h) => Ok(WrapInt64(h))
    case _ => Err(UnknownHeight)
  }

  /** The checkpoint of an empty block collection. */
  const NoBlock: int64 := -1

  /** getLocalLatestEthBlock: -1 for an empty block collection, otherwise the decoded
      height of the block that sorts first on `height` descending. */
  function LocalLatest(t: Tables, f: Faults): (r: Result<int64>)
    ensures r.Ok? && |t.blocks| == 0 ==> r.value == -1
    ensures r.Err? ==> r.why == StoreError || r.why == UnknownHeight
    ensures r.Ok? && |t.blocks| > 0 ==> exists i :: 0 <= i < |t.blocks| && DecodeHeight(Get(t.blocks[i], "height")) == r
  {
    match LatestDoc(t, f, BlockColl, ["height"])
    case Err(e) => Err(e)
    case Ok(None) => Ok(NoBlock)
    case Ok(Some(top)) => DecodeHeight(Get(top, "height"))
  }

  method GetLocalLatest(db: Database) returns (r: Result<int64>)
    ensures r == LocalLatest(db.Contents(), db.fails)
  {
    var count := db.EstimatedDocumentCount(BlockColl);
    if count.Err? {
      return Err(count.why);
    }
    if count.value == 0 {
      return Ok(-1);
    }
    var results := db.FindTopOne(BlockColl, ["height"]);
    if results.Err? {
      return Err(results.why);
    }
    if results.value.None? {
      return Ok(NoBlock);
    }
    return DecodeHeight(Get(results.value.value, "height"));
  }

  // ---------------------------------------------------------------------------
  // Preload

  /** The fields of a fetched block that Preload decodes before writing. */
  datatype Header = Header(height: uint64, time: uint64, txs: seq<Value>)

  /** `MustDecodeUint64(block["number"].(string))`, the same for `timestamp`, and
      `block["transactions"].([]any)`. */
  function DecodeHeader(block: Document): (r: Result<Header>)
    ensures r.Ok? ==> Get(block, "number").Str? && DecodeUint64(Get(block, "number").s) == Some(r.value.height)
    ensures r.Ok? ==> Get(block, "timestamp").Str? && DecodeUint64(Get(block, "timestamp").s) == Some(r.value.time)
    ensures r.Ok? ==> Get(block, "transactions") == List(r.value.txs)
  {
    var number := Get(block, "number");
    if !number.Str? then Err(BadType)
    else match DecodeUint64(number.s)
      case None => Err(BadHex)
      case Some(height) =>
        var timestamp := Get(block, "timestamp");
        if !timestamp.Str? then Err(BadType)
        else match DecodeUint64(timestamp.s)
          case None => Err(BadHex)
          case Some(time) =>
            var txs := Get(block, "transactions");
            if !txs.List? then Err(BadType) else Ok(Header(height, time, txs.items))
  }

  /** The transaction write models: each transaction must be a document
      (`tx.(map[string]any)`) and gets the block's `height`. */
  function TxModels(txs: seq<Value>, height: uint64): (r: Option<seq<Document>>)
    ensures r.Some? <==> forall i :: 0 <= i < |txs| ==> txs[i].Doc?
    ensures r.Some? ==> |r.value| == |txs|
    ensures r.Some? ==> forall i :: 0 <= i < |txs| ==> r.value[i] == txs[i].fields["height" := Uint64(height)]
    decreases |txs|
  {
    if |txs| == 0 then Some([])
    else match TxModels(txs[..|txs| - 1], height)
      case None => None
      case Some(prefix) =>
        var tx := txs[|txs| - 1];
        if tx.Doc? then Some(prefix + [tx.fields["height" := Uint64(height)]]) else None
  }

  /** The receipt write models: each receipt gets the block's `height`. */
  function WithHeight(docs: seq<Document>, height: uint64): (r: seq<Document>)
    ensures |r| == |docs|
    ensures forall i :: 0 <= i < |docs| ==> r[i] == docs[i]["height" := Uint64(height)]
  {
    seq(|docs|, i requires 0 <= i < |docs| => docs[i]["height" := Uint64(height)])
  }

  /** The block document as stored: decoded `height` and `time` added, the embedded
      `transactions` removed, every other field kept. */
  function BlockDoc(block: Document, hdr: Header): (d: Document)
    ensures "transactions" !in d
    ensures Get(d, "height") == Uint64(hdr.height) && Get(d, "time") == Uint64(hdr.time)
    ensures forall k :: k in block && k != "transactions" && k != "height" && k != "time" ==> k in d && d[k] == block[k]
  {
    block["height" := Uint64(hdr.height)]["time" := Uint64(hdr.time)] - {"transactions"}
  }

  /** The block that `eth_getBlockByNumber(toBlockNumArg(h), true)` returns. */
  function FetchBlock(node: EthNode, h: nat): Option<Document>
  {
    node.getBlockByNumber(ToBlockNumArg(Some(h)), true)
  }

  /** One iteration of Preload's loop, for height `h`: fetch and decode the block,
      fetch the receipts, check their count, then write transactions, receipts (only
      for a non-empty list) and the block, stopping at the first error. */
  function Ingest(t: Tables, f: Faults, node: EthNode, h: nat): (r: Run)
    ensures r.tables.txInfos == t.txInfos && r.tables.states == t.states
    ensures r.outcome.Aborted? ==> r.tables.blocks == t.blocks
    ensures r.outcome.Completed? ==> |r.tables.blocks| == |t.blocks| + 1
    ensures r.outcome.Completed? ==> |r.tables.transactions| - |t.transactions| == |r.tables.receipts| - |t.receipts|
  {
    var tag := ToBlockNumArg(Some(h));
    match node.getBlockByNumber(tag, true)
    case None => Run(t, Aborted(RpcError))
    case Some(block) =>
      match DecodeHeader(block)
      case Err(e) => Run(t, Aborted(e))
      case Ok(hdr) =>
        match node.getBlockReceipts(tag)
        case None => Run(t, Aborted(RpcError))
        case Some(receipts) =>
          if |hdr.txs| != |receipts| then Run(t, Aborted(ReceiptMismatch))
          else if |hdr.txs| == 0 then WriteMany(Run(t, Completed), f, BlockColl, [BlockDoc(block, hdr)])
          else match TxModels(hdr.txs, hdr.height)
            case None => Run(t, Aborted(BadType))
            case Some(txDocs) =>
              var afterTxs := WriteMany(Run(t, Completed), f, TransactionColl, txDocs);
              var afterReceipts := WriteMany(afterTxs, f, ReceiptColl, WithHeight(receipts, hdr.height));
              WriteMany(afterReceipts, f, BlockColl, [BlockDoc(block, hdr)])
  }

  /** Preload's loop over the heights `lo, lo + 1, ..., hi - 1`, stopping at the first
      height that aborts. */
  function IngestRange(t: Tables, f: Faults, node: EthNode, lo: nat, hi: nat): (r: Run)
    ensures r.tables.txInfos == t.txInfos && r.tables.states == t.states
    decreases hi - lo
  {
    if hi <= lo then Run(t, Completed)
    else
      var r := Ingest(t, f, node, lo);
      if r.outcome.Aborted? then r else IngestRange(r.tables, f, node, lo + 1, hi)
  }

  lemma IngestRangeStep(t: Tables, f: Faults, node: EthNode, lo: nat, hi: nat)
    requires lo < hi
    ensures var r := Ingest(t, f, node, lo);
      IngestRange(t, f, node, lo, hi) == if r.outcome.Aborted? then r else IngestRange(r.tables, f, node, lo + 1, hi)
  {
  }

  /** `uint64(localLatest + 1)`. */
  function StartHeight(localLatest: int64): uint64
  {
    WrapUint64(localLatest + 1)
  }

  /** EthSyncMan.Preload(end): resolve the checkpoint, fetch the remote tip (decoded,
      then unused), and ingest heights `localLatest + 1 .. end` inclusive. */
  function PreloadRun(t: Tables, f: Faults, node: EthNode, end: uint64): (r: Run)
    ensures r.tables.txInfos == t.txInfos && r.tables.states == t.states
  {
    match LocalLatest(t, f)
    case Err(e) => Run(t, Aborted(e))
    case Ok(localLatest) =>
      match node.getBlockByNumber(ToBlockNumArg(None), false)
      case None => Run(t, Aborted(RpcError))
      case Some(remoteBlock) =>
        var number := Get(remoteBlock, "number");
        if !number.Str? then Run(t, Aborted(BadType))
        else if DecodeUint64(number.s).None? then Run(t, Aborted(BadHex))
        else IngestRange(t, f, node, StartHeight(localLatest), end + 1)
  }

  method BuildTxModels(txs: seq<Value>, height: uint64) returns (models: Option<seq<Document>>)
    ensures models == TxModels(txs, height)
  {
    var acc: seq<Document> := [];
    for i := 0 to |txs|
      invariant TxModels(txs[..i], height) == Some(acc)
    {
      if !txs[i].Doc? {
        return None;
      }
      assert txs[..i + 1][..i] == txs[..i];
      acc := acc + [txs[i].fields["height" := Uint64(height)]];
    }
    assert txs[..|txs|] == txs;
    return Some(acc);
  }

  method SetHeights(receipts: seq<Document>, height: uint64) returns (models: seq<Document>)
    ensures models == WithHeight(receipts, height)
  {
    models := [];
    for i := 0 to |receipts|
      invariant |models| == i
      invariant forall j :: 0 <= j < i ==> models[j] == receipts[j]["height" := Uint64(height)]
    {
      models := models + [receipts[i]["height" := Uint64(height)]];
    }
  }

  method IngestHeight(db: Database, node: EthNode, start: nat) returns (outcome: Outcome)
    modifies db
    ensures Run(db.Contents(), outcome) == Ingest(old(db.Contents()), db.fails, node, start)
  {
    var tag := ToBlockNumArg(Some(start));
    var fetched := node.getBlockByNumber(tag, true);
    if fetched.None? {
      return Aborted(RpcError);
    }
    var block := fetched.value;
    ghost var original := block;
    var number := Get(block, "number");
    if !number.Str? {
      return Aborted(BadType);
    }
    var height := DecodeUint64(number.s);
    if height.None? {
      return Aborted(BadHex);
    }
    block := block["height" := Uint64(height.value)];
    var timestamp := Get(block, "timestamp");
    if !timestamp.Str? {
      return Aborted(BadType);
    }
    var time := DecodeUint64(timestamp.s);
    if time.None? {
      return Aborted(BadHex);
    }
    block := block["time" := Uint64(time.value)];
    var txs := Get(block, "transactions");
    if !txs.List? {
      return Aborted(BadType);
    }
    ghost var hdr := Header(height.value, time.value, txs.items);
    assert DecodeHeader(original) == Ok(hdr);
    var receipts := node.getBlockReceipts(tag);
    if receipts.None? {
      return Aborted(RpcError);
    }
    if |txs.items| != |receipts.value| {
      return Aborted(ReceiptMismatch);
    }
    if |txs.items| > 0 {
      var transactionModels := BuildTxModels(txs.items, height.value);
      if transactionModels.None? {
        return Aborted(BadType);
      }
      var receiptModels := SetHeights(receipts.value, height.value);
      var ok := db.BulkWrite(TransactionColl, transactionModels.value);
      if !ok {
        return Aborted(StoreError);
      }
      ok := db.BulkWrite(ReceiptColl, receiptModels);
      if !ok {
        return Aborted(StoreError);
      }
    }
    block := block - {"transactions"};
    assert block == BlockDoc(original, hdr);
    var ok := db.InsertOne(BlockColl, block);
    if !ok {
      return Aborted(StoreError);
    }
    return Completed;
  }

  method Preload(db: Database, node: EthNode, end: uint64) returns (outcome: Outcome)
    modifies db
    ensures Run(db.Contents(), outcome) == PreloadRun(old(db.Contents()), db.fails, node, end)
  {
    var localLatest := GetLocalLatest(db);
    if localLatest.Err? {
      return Aborted(localLatest.why);
    }
    var remoteBlock := node.getBlockByNumber(ToBlockNumArg(None), false);
    if remoteBlock.None? {
      return Aborted(RpcError);
    }
    var number := Get(remoteBlock.value, "number");
    if !number.Str? {
      return Aborted(BadType);
    }
    var remoteLatest := DecodeUint64(number.s);
    if remoteLatest.None? {
      return Aborted(BadHex);
    }
    outcome := IngestHeights(db, node, StartHeight(localLatest.value), end);
  }

  /** One turn of Preload's loop, stated against the rest of the loop. */
  method IngestStep(db: Database, node: EthNode, h: nat, hi: nat, ghost goal: Run) returns (outcome: Outcome, next: nat)
    requires h < hi && IngestRange(db.Contents(), db.fails, node, h, hi) == goal
    modifies db
    ensures next == h + 1
    ensures outcome.Aborted? ==> Run(db.Contents(), outcome) == goal
    ensures outcome.Completed? ==> IngestRange(db.Contents(), db.fails, node, next, hi) == goal
  {
    IngestRangeStep(db.Contents(), db.fails, node, h, hi);
    outcome := IngestHeight(db, node, h);
    next := h + 1;
  }

  /** The loop of Preload: heights `start .. end` inclusive. */
  method IngestHeights(db: Database, node: EthNode, start: nat, end: uint64) returns (outcome: Outcome)
    modifies db
    ensures Run(db.Contents(), outcome) == IngestRange(old(db.Contents()), db.fails, node, start, end + 1)
  {
    var h := start;
    ghost var goal := IngestRange(db.Contents(), db.fails, node, start, end + 1);
    while h <= end
      invariant IngestRange(db.Contents(), db.fails, node, h, end + 1) == goal
      decreases end + 1 - h
    {
      var next;
      outcome, next := IngestStep(db, node, h, end + 1, goal);
      if outcome.Aborted? {
        return;
      }
      h := next;
    }
    return Completed;
  }

  // ---------------------------------------------------------------------------
  // MaintainState

  /** The batch of initiallyUpsertAccount: balance, code and storage slot 0x0, all
      at the `latest` tag. */
  function AccountCalls(addr: string): (calls: seq<RpcCall>)
    ensures |calls| == 3
    ensures forall i :: 0 <= i < 3 ==> |calls[i].args| >= 2 && calls[i].args[0] == addr && calls[i].args[|calls[i].args| - 1] == "latest"
  {
    [ RpcCall("eth_getBalance", [addr, "latest"]),
      RpcCall("eth_getCode", [addr, "latest"]),
      RpcCall("eth_getStorageAt", [addr, "0x0", "latest"]) ]
  }

  /** The `$set` document of the upsert (its float `balance` field is left out). */
  function AccountDoc(addr: string, hexBalance: string, code: string, storage: string): (d: Document)
    ensures d.Keys == {"address", "hexBalance", "code", "storage"}
    ensures Get(d, "address") == Str(addr)
  {
    map["address" := Str(addr), "hexBalance" := Str(hexBalance), "code" := Str(code), "storage" := Str(storage)]
  }

  /** The account document of initiallyUpsertAccount: the batch must be sent, every
      element must succeed and the balance must decode (`MustDecodeBig`). */
  function FetchAccount(node: EthNode, addr: string): (r: Result<Document>)
    ensures r.Ok? ==> Get(r.value, "address") == Str(addr)
    ensures r.Ok? ==> r.value.Keys == {"address", "hexBalance", "code", "storage"}
    ensures r.Err? ==> r.why == RpcError || r.why == BadHex
  {
    var calls := AccountCalls(addr);
    if !node.batchSent(calls) then Err(RpcError)
    else
      var balance, code, storage := node.call(calls[0]), node.call(calls[1]), node.call(calls[2]);
      if balance.None? || code.None? || storage.None? then Err(RpcError)
      else if DecodeBig(balance.value).None? then Err(BadHex)
      else Ok(AccountDoc(addr, balance.value, code.value, storage.value))
  }

  /** initiallyUpsertAccount: fetch the account, then upsert it keyed by address. */
  function UpsertAccount(t: Tables, f: Faults, node: EthNode, addr: string): (r: Run)
    ensures r.tables.blocks == t.blocks && r.tables.transactions == t.transactions
    ensures r.tables.receipts == t.receipts && r.tables.txInfos == t.txInfos
    ensures r.outcome.Aborted? ==> r.tables == t
  {
    match FetchAccount(node, addr)
    case Err(e) => Run(t, Aborted(e))
    case Ok(acc) =>
      if Fails(f, t, Write(StateColl)) then Run(t, Aborted(StoreError))
      else Run(t.(states := Upsert(t.states, addr, acc)), Completed)
  }

  /** One cursor loop: every group key must be a string (`.(string)`), and each is
      upserted in turn, stopping at the first error. */
  function UpsertKeys(t: Tables, f: Faults, node: EthNode, keys: seq<Value>): (r: Run)
    ensures r.tables.blocks == t.blocks && r.tables.transactions == t.transactions
    decreases |keys|
  {
    if |keys| == 0 then Run(t, Completed)
    else if !keys[0].Str? then Run(t, Aborted(BadType))
    else
      var r := UpsertAccount(t, f, node, keys[0].s);
      if r.outcome.Aborted? then r else UpsertKeys(r.tables, f, node, keys[1..])
  }

  /** One pass of MaintainState: group collection `c` on `field`, then upsert every key. */
  function ScanPass(r: Run, f: Faults, node: EthNode, c: Coll, field: string): Run
  {
    if r.outcome.Aborted? then r
    else match GroupKeys(r.tables, f, c, field)
      case Err(e) => Run(r.tables, Aborted(e))
      case Ok(keys) => UpsertKeys(r.tables, f, node, keys)
  }

  /** EthSyncMan.MaintainState: the block miners, then the transaction senders, then
      the transaction recipients. */
  function MaintainStateRun(t: Tables, f: Faults, node: EthNode): Run
  {
    var miners := ScanPass(Run(t, Completed), f, node, BlockColl, "miner");
    var senders := ScanPass(miners, f, node, TransactionColl, "from");
    ScanPass(senders, f, node, TransactionColl, "to")
  }

  method InitiallyUpsertAccount(db: Database, node: EthNode, addr: string) returns (outcome: Outcome)
    modifies db
    ensures Run(db.Contents(), outcome) == UpsertAccount(old(db.Contents()), db.fails, node, addr)
  {
    var elems := AccountCalls(addr);
    if !node.batchSent(elems) {
      return Aborted(RpcError);
    }
    var hexBal, hexCode, hexStorage := node.call(elems[0]), node.call(elems[1]), node.call(elems[2]);
    if hexBal.None? || hexCode.None? || hexStorage.None? {
      return Aborted(RpcError);
    }
    var bigBal := DecodeBig(hexBal.value);
    if bigBal.None? {
      return Aborted(BadHex);
    }
    var acc := AccountDoc(addr, hexBal.value, hexCode.value, hexStorage.value);
    var ok := db.UpdateOneUpsert(addr, acc);
    if !ok {
      return Aborted(StoreError);
    }
    return Completed;
  }

  method UpsertAll(db: Database, node: EthNode, keys: seq<Value>) returns (outcome: Outcome)
    modifies db
    ensures Run(db.Contents(), outcome) == UpsertKeys(old(db.Contents()), db.fails, node, keys)
  {
    var i := 0;
    while i < |keys|
      invariant 0 <= i <= |keys|
      invariant UpsertKeys(db.Contents(), db.fails, node, keys[i..]) == UpsertKeys(old(db.Contents()), db.fails, node, keys)
    {
      if !keys[i].Str? {
        return Aborted(BadType);
      }
      outcome := InitiallyUpsertAccount(db, node, keys[i].s);
      if outcome.Aborted? {
        return;
      }
      assert keys[i..][1..] == keys[i + 1..];
      i := i + 1;
    }
    return Completed;
  }

  method ScanAndUpsert(db: Database, node: EthNode, c: Coll, field: string) returns (outcome: Outcome)
    modifies db
    ensures Run(db.Contents(), outcome) == ScanPass(Run(old(db.Contents()), Completed), db.fails, node, c, field)
  {
    var cur := db.GroupBy(c, field);
    if cur.Err? {
      return Aborted(cur.why);
    }
    outcome := UpsertAll(db, node, cur.value);
  }

  method MaintainState(db: Database, node: EthNode) returns (outcome: Outcome)
    modifies db
    ensures Run(db.Contents(), outcome) == MaintainStateRun(old(db.Contents()), db.fails, node)
  {
    var _ := db.CreateIndex(StateColl, "address");  // its error is ignored
    outcome := ScanAndUpsert(db, node, BlockColl, "miner");
    if outcome.Aborted? {
      return;
    }
    outcome := ScanAndUpsert(db, node, TransactionColl, "from");
    if outcome.Aborted? {
      return;
    }
    outcome := ScanAndUpsert(db, node, TransactionColl, "to");
  }
}
