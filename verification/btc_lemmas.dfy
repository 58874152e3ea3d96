/** Properties of the Bitcoin sync manager: what one height writes, the order of
    the heights that Preload appends, and what Check inserts and reports. */
module BtcLemmas {
  import opened Wrappers
  import opened Bson
  import opened Store
  import opened Btc

  // ---------------------------------------------------------------------------
  // Documents

  /** The raw-list fallback keeps the block's height and fields, changes nothing
      when the verbose list is non-empty, and applying it twice is applying it once. */
  lemma UseRawTxEffect(b: BtcBlock)
    ensures var r := UseRawTx(b);
      && r.height == b.height && r.fields == b.fields
      && (|b.tx| > 0 ==> r == b)
      && (|b.tx| == 0 ==> r.tx == b.rawTx && r.rawTx == [])
      && UseRawTx(r) == r
  {
  }

  /** Every transaction document carries its hash and keeps the other fields. */
  lemma TxDocsEffect(txs: seq<BtcTx>)
    ensures |TxDocs(txs)| == |txs|
    ensures forall i :: 0 <= i < |txs| ==> TxDocs(txs)[i] == TxDoc(txs[i])
    ensures forall i :: 0 <= i < |txs| ==> Get(TxDoc(txs[i]), "hash") == Str(txs[i].hash)
    ensures forall i, k :: 0 <= i < |txs| && k in txs[i].fields && k != "hash" ==> k in TxDoc(txs[i]) && TxDoc(txs[i])[k] == txs[i].fields[k]
  {
  }

  /** A stored transaction list: null when empty, otherwise one embedded document per
      transaction, in order. */
  lemma TxListEffect(txs: seq<BtcTx>)
    ensures TxList(txs).Null? <==> |txs| == 0
    ensures |txs| > 0 ==> TxList(txs).List? && |TxList(txs).items| == |txs|
    ensures |txs| > 0 ==> forall i :: 0 <= i < |txs| ==> TxList(txs).items[i] == Doc(TxDoc(txs[i]))
  {
  }

  /** The stored block: its `height`, both transaction lists, and its other fields. */
  lemma BlockDocEffect(b: BtcBlock)
    ensures Get(BlockDoc(b), "height") == Int64(b.height)
    ensures Get(BlockDoc(b), "tx") == TxList(b.tx) && Get(BlockDoc(b), "rawtx") == TxList(b.rawTx)
    ensures forall k :: k in b.fields && k != "height" && k != "tx" && k != "rawtx" ==> k in BlockDoc(b) && BlockDoc(b)[k] == b.fields[k]
  {
  }

  /** After the fallback the stored `rawtx` is always null. */
  lemma StoredRawTxIsNull(b: BtcBlock)
    requires |b.tx| == 0
    ensures Get(BlockDoc(UseRawTx(b)), "rawtx") == Null
    ensures Get(BlockDoc(UseRawTx(b)), "tx") == TxList(b.rawTx)
  {
  }

  // ---------------------------------------------------------------------------
  // One height of Preload

  /** What one height writes: its transactions (when there are any), then the block.
      Only the transaction and block collections change; an abort leaves the block
      collection as it was, and the transactions are either all written or none. */
  lemma IngestWrites(t: Tables, f: Faults, node: BtcNode, h: int)
    ensures var r := Ingest(t, f, node, h);
      && r.tables.receipts == t.receipts && r.tables.txInfos == t.txInfos && r.tables.states == t.states
      && (r.outcome.Aborted? ==> r.tables.blocks == t.blocks)
      && (r.outcome.Aborted? ==> r.outcome.why == RpcError || r.outcome.why == StoreError)
      && (FetchBlock(node, h).None? ==> r == Run(t, Aborted(RpcError)))
      && (FetchBlock(node, h).Some? ==>
            var b := UseRawTx(FetchBlock(node, h).value);
            && (r.tables.transactions == t.transactions || r.tables.transactions == t.transactions + TxDocs(b.tx))
            && (r.outcome.Completed? ==>
                  && r.tables.blocks == t.blocks + [BlockDoc(b)]
                  && r.tables.transactions == t.transactions + TxDocs(b.tx)))
  {
    if FetchBlock(node, h).Some? {
      var b := UseRawTx(FetchBlock(node, h).value);
      if |b.tx| == 0 {
        assert t.transactions + TxDocs(b.tx) == t.transactions;
      }
    }
  }

  /** A height whose transaction write is refused stores no block for it. */
  lemma TxWriteFailureStoresNoBlock(t: Tables, f: Faults, node: BtcNode, h: int)
    requires FetchBlock(node, h).Some? && |UseRawTx(FetchBlock(node, h).value).tx| > 0
    requires Fails(f, t, Write(TransactionColl))
    ensures Ingest(t, f, node, h) == Run(t, Aborted(StoreError))
  {
  }

  // ---------------------------------------------------------------------------
  // The height loop of Preload

  /** Receipts, txInfos and states are the same in both tables. */
  predicate KeepsOthers(a: Tables, b: Tables)
  {
    b.receipts == a.receipts && b.txInfos == a.txInfos && b.states == a.states
  }

  /** The node answers height `h` with the block of that height. */
  predicate Honest(node: BtcNode, h: int)
  {
    FetchBlock(node, h).Some? ==> FetchBlock(node, h).value.height == h
  }

  /** `d` is a block document of height `h`. */
  predicate HeightIs(d: Document, h: int)
  {
    Get(d, "height").Int64? && Get(d, "height").i64 == h
  }

  /** `after` is `before` followed by blocks of consecutive heights from `lo`. */
  ghost predicate AppendedFrom(before: seq<Document>, after: seq<Document>, lo: int)
  {
    && |after| >= |before|
    && after[..|before|] == before
    && forall i :: |before| <= i < |after| ==> HeightIs(after[i], lo + i - |before|)
  }

  lemma AppendedChain(a: seq<Document>, b: seq<Document>, c: seq<Document>, lo: int)
    requires |b| == |a| + 1 && AppendedFrom(a, b, lo) && AppendedFrom(b, c, lo + 1)
    ensures AppendedFrom(a, c, lo)
  {
    assert c[..|a|] == c[..|b|][..|a|];
    forall i | |a| <= i < |c|
      ensures HeightIs(c[i], lo + i - |a|)
    {
      if i == |a| {
        assert c[i] == c[..|b|][i];
      }
    }
  }

  /** The effect of one height on the block collection, for an honest node: one
      block of that height appended, or nothing. */
  lemma IngestBlock(t: Tables, f: Faults, node: BtcNode, h: int)
    requires Honest(node, h)
    ensures var r := Ingest(t, f, node, h);
      if r.outcome.Completed? then |r.tables.blocks| == |t.blocks| + 1 && AppendedFrom(t.blocks, r.tables.blocks, h)
      else r.tables.blocks == t.blocks
  {
    IngestWrites(t, f, node, h);
    var r := Ingest(t, f, node, h);
    if r.outcome.Completed? {
      var b := UseRawTx(FetchBlock(node, h).value);
      BlockDocEffect(b);
      assert r.tables.blocks[|t.blocks|] == BlockDoc(b);
      assert r.tables.blocks[..|t.blocks|] == t.blocks;
    }
  }

  /** The loop over `lo .. hi - 1` touches neither receipts, txInfos nor states. */
  lemma {:induction false} IngestRangeFrame(t: Tables, f: Faults, node: BtcNode, lo: int, hi: int)
    ensures var r := IngestRange(t, f, node, lo, hi);
      r.tables.receipts == t.receipts && r.tables.txInfos == t.txInfos && r.tables.states == t.states
    decreases hi - lo
  {
    if lo < hi {
      IngestRangeStep(t, f, node, lo, hi);
      IngestWrites(t, f, node, lo);
      var r1 := Ingest(t, f, node, lo);
      if r1.outcome.Completed? {
        IngestRangeFrame(r1.tables, f, node, lo + 1, hi);
      }
    }
  }

  /** The blocks that the loop over `lo .. hi - 1` appends, for an honest node:
      consecutive heights from `lo`, all of them when the run completes, and the
      blocks already stored are kept. */
  lemma {:induction false} IngestRangeAscending(t: Tables, f: Faults, node: BtcNode, lo: int, hi: int)
    requires forall h :: lo <= h < hi ==> Honest(node, h)
    ensures AppendedFrom(t.blocks, IngestRange(t, f, node, lo, hi).tables.blocks, lo)
    ensures hi <= lo ==> IngestRange(t, f, node, lo, hi).tables == t
    ensures lo < hi ==> |IngestRange(t, f, node, lo, hi).tables.blocks| - |t.blocks| <= hi - lo
    ensures IngestRange(t, f, node, lo, hi).outcome.Completed? && lo < hi ==>
      |IngestRange(t, f, node, lo, hi).tables.blocks| - |t.blocks| == hi - lo
    decreases hi - lo
  {
    if lo < hi {
      IngestRangeStep(t, f, node, lo, hi);
      var r1 := Ingest(t, f, node, lo);
      IngestBlock(t, f, node, lo);
      if r1.outcome.Completed? {
        IngestRangeAscending(r1.tables, f, node, lo + 1, hi);
        AppendedChain(t.blocks, r1.tables.blocks, IngestRange(r1.tables, f, node, lo + 1, hi).tables.blocks, lo);
      } else {
        assert t.blocks[..|t.blocks|] == t.blocks;
      }
    } else {
      assert t.blocks[..|t.blocks|] == t.blocks;
    }
  }

  // ---------------------------------------------------------------------------
  // Checkpoint

  /** When every stored height is an int64, the checkpoint is the largest of them
      and some stored block has it. */
  lemma LocalLatestIsMaximum(t: Tables, f: Faults)
    requires !Fails(f, t, Count(BlockColl)) && !Fails(f, t, Find(BlockColl))
    requires |t.blocks| > 0
    requires forall i :: 0 <= i < |t.blocks| ==> Get(t.blocks[i], "height").Int64?
    ensures LocalLatest(t, f).Ok?
    ensures forall i :: 0 <= i < |t.blocks| ==> Get(t.blocks[i], "height").i64 <= LocalLatest(t, f).value
    ensures exists i :: 0 <= i < |t.blocks| && Get(t.blocks[i], "height").i64 == LocalLatest(t, f).value
  {
    var k := TopIndex(t.blocks, ["height"]);
    var top := Get(t.blocks[k], "height");
    assert PathValue(t.blocks[k], ["height"]) == top;
    assert LocalLatest(t, f) == Ok(top.i64);
    forall i | 0 <= i < |t.blocks|
      ensures Get(t.blocks[i], "height").i64 <= top.i64
    {
      assert PathValue(t.blocks[i], ["height"]) == Get(t.blocks[i], "height");
      assert SortLe(PathValue(t.blocks[i], ["height"]), PathValue(t.blocks[k], ["height"]));
    }
  }

  /** Appending blocks of consecutive heights from `start` (0 on an empty store) to
      a store of int64 heights never lowers its checkpoint. */
  lemma AppendedKeepsLatest(t: Tables, after: Tables, f: Faults, start: int)
    requires !Fails(f, t, Count(BlockColl)) && !Fails(f, t, Find(BlockColl))
    requires !Fails(f, after, Count(BlockColl)) && !Fails(f, after, Find(BlockColl))
    requires forall i :: 0 <= i < |t.blocks| ==> Get(t.blocks[i], "height").Int64?
    requires AppendedFrom(t.blocks, after.blocks, start)
    requires |t.blocks| == 0 ==> start == 0
    ensures LocalLatest(t, f).Ok? && LocalLatest(after, f).Ok?
    ensures LocalLatest(after, f).value >= LocalLatest(t, f).value
  {
    if |after.blocks| == 0 {
      assert |t.blocks| == 0;
    } else {
      forall i | 0 <= i < |after.blocks|
        ensures Get(after.blocks[i], "height").Int64?
      {
        if i < |t.blocks| {
          assert after.blocks[i] == after.blocks[..|t.blocks|][i];
        } else {
          assert HeightIs(after.blocks[i], start + i - |t.blocks|);
        }
      }
      LocalLatestIsMaximum(after, f);
      if |t.blocks| > 0 {
        LocalLatestIsMaximum(t, f);
        var j :| 0 <= j < |t.blocks| && Get(t.blocks[j], "height").i64 == LocalLatest(t, f).value;
        assert after.blocks[j] == after.blocks[..|t.blocks|][j];
      } else {
        assert HeightIs(after.blocks[0], 0);
      }
    }
  }

  // ---------------------------------------------------------------------------
  // Preload

  /** The safe height is the remote tip truncated toward zero to a multiple of 100:
      at most 99 below a non-negative tip, at most 99 above a negative one. */
  lemma SafeHeightBounds(remoteLatest: int32)
    ensures SafeHeight(remoteLatest) % 100 == 0
    ensures remoteLatest >= 0 ==> 0 <= SafeHeight(remoteLatest) <= remoteLatest < SafeHeight(remoteLatest) + 100
    ensures remoteLatest < 0 ==> SafeHeight(remoteLatest) - 100 < remoteLatest <= SafeHeight(remoteLatest) <= 0
  {
  }

  /** Preload aborts without writing when the checkpoint or the remote tip cannot be
      read, and otherwise runs the height loop from the checkpoint. */
  lemma PreloadShape(t: Tables, f: Faults, node: BtcNode, end: uint64)
    ensures LocalLatest(t, f).Err? ==> PreloadRun(t, f, node, end) == Run(t, Aborted(LocalLatest(t, f).why))
    ensures LocalLatest(t, f).Ok? && node.bestBlock.None? ==> PreloadRun(t, f, node, end) == Run(t, Aborted(RpcError))
    ensures LocalLatest(t, f).Ok? && node.bestBlock.Some? ==>
      PreloadRun(t, f, node, end) == PreloadFrom(t, f, node, LocalLatest(t, f).value, node.bestBlock.value)
  {
  }

  /** Whatever aborts, Preload appends blocks of consecutive heights from the
      checkpoint's successor. */
  lemma PreloadAppends(t: Tables, f: Faults, node: BtcNode, end: uint64)
    requires forall h :: Honest(node, h)
    requires LocalLatest(t, f).Ok?
    ensures AppendedFrom(t.blocks, PreloadRun(t, f, node, end).tables.blocks, WrapInt64(LocalLatest(t, f).value as int + 1))
  {
    var start := WrapInt64(LocalLatest(t, f).value as int + 1);
    PreloadShape(t, f, node, end);
    if node.bestBlock.Some? {
      var blocks := PreloadRun(t, f, node, end).tables.blocks;
      var safe := SafeHeight(node.bestBlock.value);
      assert blocks == IngestRange(t, f, node, start, safe + 1).tables.blocks;
      PreloadHeights(t, f, node, start, safe);
    } else {
      assert t.blocks[..|t.blocks|] == t.blocks;
    }
  }

  /** Preload never moves the checkpoint back, whatever aborts: the blocks already
      stored are kept and the ones it appends carry int64 heights. */
  lemma CheckpointNeverDecreases(t: Tables, f: Faults, node: BtcNode, end: uint64)
    requires forall n :: !f(Count(BlockColl), n) && !f(Find(BlockColl), n)
    requires forall i :: 0 <= i < |t.blocks| ==> Get(t.blocks[i], "height").Int64?
    requires forall h :: Honest(node, h)
    ensures LocalLatest(t, f).Ok?
    ensures LocalLatest(PreloadRun(t, f, node, end).tables, f).Ok?
    ensures LocalLatest(PreloadRun(t, f, node, end).tables, f).value >= LocalLatest(t, f).value
  {
    var after := PreloadRun(t, f, node, end).tables;
    assert !Fails(f, t, Count(BlockColl)) && !Fails(f, t, Find(BlockColl));
    assert !Fails(f, after, Count(BlockColl)) && !Fails(f, after, Find(BlockColl));
    PreloadAppends(t, f, node, end);
    AppendedKeepsLatest(t, after, f, WrapInt64(LocalLatest(t, f).value as int + 1));
  }

  /** The block collection holds the heights `0 .. |blocks| - 1`, each once, in
      order of insertion. */
  predicate GapFree(blocks: seq<Document>)
  {
    forall i :: 0 <= i < |blocks| ==> HeightIs(blocks[i], i)
  }

  /** The checkpoint of a gap-free store is its last height. */
  lemma GapFreeLatest(t: Tables, f: Faults)
    requires GapFree(t.blocks) && LocalLatest(t, f).Ok?
    ensures LocalLatest(t, f).value == |t.blocks| - 1
  {
    if |t.blocks| > 0 {
      LocalLatestIsMaximum(t, f);
      assert HeightIs(t.blocks[|t.blocks| - 1], |t.blocks| - 1);
    }
  }

  /** Preload keeps a gap-free store gap-free, whatever aborts: it resumes at the
      height after the last one stored. */
  lemma PreloadKeepsGapFree(t: Tables, f: Faults, node: BtcNode, end: uint64)
    requires GapFree(t.blocks) && |t.blocks| <= 0x7fff_ffff_ffff_ffff
    requires forall h :: Honest(node, h)
    ensures GapFree(PreloadRun(t, f, node, end).tables.blocks)
  {
    var after := PreloadRun(t, f, node, end).tables.blocks;
    if LocalLatest(t, f).Ok? {
      GapFreeLatest(t, f);
      assert WrapInt64(LocalLatest(t, f).value as int + 1) == |t.blocks|;
      PreloadAppends(t, f, node, end);
      forall i | 0 <= i < |after|
        ensures HeightIs(after[i], i)
      {
        if i < |t.blocks| {
          assert after[i] == after[..|t.blocks|][i];
        }
      }
    } else {
      PreloadShape(t, f, node, end);
    }
  }

  /** The `end` argument of Preload has no effect. */
  lemma PreloadIgnoresEnd(t: Tables, f: Faults, node: BtcNode, end1: uint64, end2: uint64)
    ensures PreloadRun(t, f, node, end1) == PreloadRun(t, f, node, end2)
  {
  }

  /** What a run `r` of the height loop over `start .. safe`, started from `t`, has
      done: appended blocks of consecutive heights from `start`, all of them when it
      completed, and left receipts, txInfos and states as they were. */
  ghost predicate Preloaded(t: Tables, start: int, safe: int, r: Run)
  {
    && KeepsOthers(t, r.tables)
    && AppendedFrom(t.blocks, r.tables.blocks, start)
    && (r.outcome.Completed? ==> |r.tables.blocks| - |t.blocks| == if safe < start then 0 else safe + 1 - start)
  }

  /** Preload appends the heights from the checkpoint's successor up to the safe
      height in ascending order, all of them when it completes; receipts, txInfos and
      states are not touched (see Preloaded). */
  lemma PreloadHeights(t: Tables, f: Faults, node: BtcNode, start: int, safe: int)
    requires forall h :: Honest(node, h)
    ensures Preloaded(t, start, safe, IngestRange(t, f, node, start, safe + 1))
  {
    IngestRangeFrame(t, f, node, start, safe + 1);
    IngestRangeAscending(t, f, node, start, safe + 1);
  }

  /** A checkpoint at or past the safe height leaves the store as it is (unless the
      checkpoint's successor wraps around to the most negative int64). */
  lemma PreloadCaughtUp(t: Tables, f: Faults, node: BtcNode, localLatest: int64, remoteLatest: int32)
    requires SafeHeight(remoteLatest) <= localLatest < 0x7fff_ffff_ffff_ffff
    ensures PreloadFrom(t, f, node, localLatest, remoteLatest) == Run(t, Completed)
  {
    assert WrapInt64(localLatest as int + 1) == localLatest + 1;
  }

  /** The checkpoint of the largest int64 wraps its successor around: Preload then
      starts from the most negative height. */
  lemma PreloadWrapsAtMaximum(t: Tables, f: Faults, node: BtcNode, remoteLatest: int32)
    ensures PreloadFrom(t, f, node, 0x7fff_ffff_ffff_ffff, remoteLatest) ==
      IngestRange(t, f, node, -0x8000_0000_0000_0000, SafeHeight(remoteLatest) + 1)
  {
  }

  /** An empty store and a tip below 100: the safe height is 0, so Preload fetches
      and writes height 0 only. */
  lemma FreshStoreLowTip(t: Tables, f: Faults, node: BtcNode, end: uint64)
    requires |t.blocks| == 0 && !Fails(f, t, Count(BlockColl))
    requires node.bestBlock.Some? && 0 <= node.bestBlock.value < 100
    ensures PreloadRun(t, f, node, end) == Ingest(t, f, node, 0)
  {
    PreloadShape(t, f, node, end);
    assert LocalLatest(t, f) == Ok(-1);
    assert SafeHeight(node.bestBlock.value) == 0;
    IngestRangeStep(t, f, node, 0, 1);
  }

  // ---------------------------------------------------------------------------
  // The inner loop of Check

  /** A hash stored in `a` is still stored in any extension `b` of `a`. */
  lemma HasHashKept(a: seq<Document>, b: seq<Document>, hash: string)
    requires |a| <= |b| && b[..|a|] == a && HasHash(a, hash)
    ensures HasHash(b, hash)
  {
    var i :| 0 <= i < |a| && Get(a[i], "hash") == Str(hash);
    assert b[i] == b[..|a|][i];
  }

  lemma HasHashTxDoc(a: seq<Document>, tx: BtcTx)
    ensures HasHash(a + [TxDoc(tx)], tx.hash)
  {
    assert (a + [TxDoc(tx)])[|a|] == TxDoc(tx);
  }

  /** The transactions after inserting the document of `tx` into `t`. */
  function WithTx(t: Tables, tx: BtcTx): Tables
  {
    t.(transactions := t.transactions + [TxDoc(tx)])
  }

  /** One step of the inner loop, by the outcome of the first lookup. */
  lemma InsertMissingStep(t: Tables, f: Faults, txs: seq<BtcTx>)
    requires |txs| > 0
    ensures FindByHash(t, f, txs[0].hash) == LookupFailed ==> InsertMissing(t, f, txs) == TxPass(Run(t, Aborted(StoreError)), 0)
    ensures FindByHash(t, f, txs[0].hash) == Found ==> InsertMissing(t, f, txs) == InsertMissing(t, f, txs[1..])
    ensures FindByHash(t, f, txs[0].hash) == NoDocuments && Fails(f, t, Write(TransactionColl)) ==>
      InsertMissing(t, f, txs) == TxPass(Run(t, Aborted(StoreError)), 0)
    ensures FindByHash(t, f, txs[0].hash) == NoDocuments && !Fails(f, t, Write(TransactionColl)) ==>
      var rest := InsertMissing(WithTx(t, txs[0]), f, txs[1..]);
      InsertMissing(t, f, txs) == TxPass(rest.run, rest.inserted + 1)
  {
  }

  /** What the inner loop does to the store: only the transaction collection grows,
      by exactly the number it reports inserted (also on an abort), never by more
      than the number of transactions, and an abort is a store error. */
  lemma {:induction false} InsertMissingEffect(t: Tables, f: Faults, txs: seq<BtcTx>)
    ensures var p := InsertMissing(t, f, txs);
      && p.inserted <= |txs|
      && (p.run.outcome.Aborted? ==> p.run.outcome.why == StoreError)
      && p.run.tables.blocks == t.blocks && KeepsOthers(t, p.run.tables)
      && |p.run.tables.transactions| == |t.transactions| + p.inserted
      && p.run.tables.transactions[..|t.transactions|] == t.transactions
    decreases |txs|
  {
    if |txs| == 0 {
      assert t.transactions[..|t.transactions|] == t.transactions;
    } else {
      InsertMissingStep(t, f, txs);
      var lookup := FindByHash(t, f, txs[0].hash);
      if lookup == Found {
        InsertMissingEffect(t, f, txs[1..]);
      } else if lookup == NoDocuments && !Fails(f, t, Write(TransactionColl)) {
        var mid := WithTx(t, txs[0]);
        InsertMissingEffect(mid, f, txs[1..]);
        var after := InsertMissing(t, f, txs).run.tables.transactions;
        assert after[..|t.transactions|] == after[..|mid.transactions|][..|t.transactions|];
      } else {
        assert t.transactions[..|t.transactions|] == t.transactions;
      }
    }
  }

  /** Every document of `after` beyond `before` is the document of one of `txs` whose
      hash `before` does not hold. */
  ghost predicate OnlyMissing(before: seq<Document>, after: seq<Document>, txs: seq<BtcTx>)
  {
    forall k :: |before| <= k < |after| ==>
      exists j :: 0 <= j < |txs| && after[k] == TxDoc(txs[j]) && !HasHash(before, txs[j].hash)
  }

  lemma OnlyMissingSkip(before: seq<Document>, after: seq<Document>, txs: seq<BtcTx>)
    requires |txs| > 0 && OnlyMissing(before, after, txs[1..])
    ensures OnlyMissing(before, after, txs)
  {
    forall k | |before| <= k < |after|
      ensures exists j :: 0 <= j < |txs| && after[k] == TxDoc(txs[j]) && !HasHash(before, txs[j].hash)
    {
      var j :| 0 <= j < |txs[1..]| && after[k] == TxDoc(txs[1..][j]) && !HasHash(before, txs[1..][j].hash);
      assert txs[1..][j] == txs[j + 1];
      assert after[k] == TxDoc(txs[j + 1]) && !HasHash(before, txs[j + 1].hash);
    }
    assert forall k :: |before| <= k < |after| ==>
      exists j :: 0 <= j < |txs| && after[k] == TxDoc(txs[j]) && !HasHash(before, txs[j].hash);
  }

  lemma OnlyMissingInsert(before: seq<Document>, after: seq<Document>, txs: seq<BtcTx>)
    requires |txs| > 0 && !HasHash(before, txs[0].hash)
    requires |after| > |before| && after[|before|] == TxDoc(txs[0])
    requires OnlyMissing(before + [TxDoc(txs[0])], after, txs[1..])
    ensures OnlyMissing(before, after, txs)
  {
    var mid := before + [TxDoc(txs[0])];
    forall k | |before| <= k < |after|
      ensures exists j :: 0 <= j < |txs| && after[k] == TxDoc(txs[j]) && !HasHash(before, txs[j].hash)
    {
      if k == |before| {
        assert after[k] == TxDoc(txs[0]) && !HasHash(before, txs[0].hash);
      } else {
        var j :| 0 <= j < |txs[1..]| && after[k] == TxDoc(txs[1..][j]) && !HasHash(mid, txs[1..][j].hash);
        assert txs[1..][j] == txs[j + 1];
        if HasHash(before, txs[j + 1].hash) {
          assert mid[..|before|] == before;
          HasHashKept(before, mid, txs[j + 1].hash);
        }
        assert after[k] == TxDoc(txs[j + 1]) && !HasHash(before, txs[j + 1].hash);
      }
    }
  }

  /** Every document the inner loop adds is the document of one of the block's
      transactions whose hash was not stored before the loop. */
  lemma {:induction false} InsertMissingAddsOnlyMissing(t: Tables, f: Faults, txs: seq<BtcTx>)
    ensures OnlyMissing(t.transactions, InsertMissing(t, f, txs).run.tables.transactions, txs)
    decreases |txs|
  {
    var after := InsertMissing(t, f, txs).run.tables.transactions;
    InsertMissingEffect(t, f, txs);
    if |txs| > 0 {
      InsertMissingStep(t, f, txs);
      var lookup := FindByHash(t, f, txs[0].hash);
      if lookup == Found {
        InsertMissingAddsOnlyMissing(t, f, txs[1..]);
        OnlyMissingSkip(t.transactions, after, txs);
      } else if lookup == NoDocuments && !Fails(f, t, Write(TransactionColl)) {
        var mid := WithTx(t, txs[0]);
        InsertMissingAddsOnlyMissing(mid, f, txs[1..]);
        InsertMissingEffect(mid, f, txs[1..]);
        assert after[|t.transactions|] == after[..|mid.transactions|][|t.transactions|];
        OnlyMissingInsert(t.transactions, after, txs);
      }
    }
  }

  /** When the inner loop completes, every transaction of the block is stored. */
  lemma {:induction false} InsertMissingCovers(t: Tables, f: Faults, txs: seq<BtcTx>)
    requires InsertMissing(t, f, txs).run.outcome.Completed?
    ensures forall j :: 0 <= j < |txs| ==> HasHash(InsertMissing(t, f, txs).run.tables.transactions, txs[j].hash)
    decreases |txs|
  {
    if |txs| > 0 {
      InsertMissingStep(t, f, txs);
      var after := InsertMissing(t, f, txs).run.tables.transactions;
      var mid := if FindByHash(t, f, txs[0].hash) == Found then t else WithTx(t, txs[0]);
      if FindByHash(t, f, txs[0].hash) != Found {
        HasHashTxDoc(t.transactions, txs[0]);
      }
      assert HasHash(mid.transactions, txs[0].hash);
      assert InsertMissing(t, f, txs).run == InsertMissing(mid, f, txs[1..]).run;
      InsertMissingCovers(mid, f, txs[1..]);
      InsertMissingEffect(mid, f, txs[1..]);
      HasHashKept(mid.transactions, after, txs[0].hash);
      forall j | 1 <= j < |txs|
        ensures HasHash(after, txs[j].hash)
      {
        assert txs[1..][j - 1] == txs[j];
      }
    }
  }

  /** When every hash is already stored and no lookup fails, the inner loop changes
      nothing and inserts nothing. */
  lemma {:induction false} InsertMissingPresent(t: Tables, f: Faults, txs: seq<BtcTx>)
    requires forall j :: 0 <= j < |txs| ==> HasHash(t.transactions, txs[j].hash) && !Fails(f, t, FindHash(txs[j].hash))
    ensures InsertMissing(t, f, txs) == TxPass(Run(t, Completed), 0)
    decreases |txs|
  {
    if |txs| > 0 {
      InsertMissingStep(t, f, txs);
      assert FindByHash(t, f, txs[0].hash) == Found;
      forall j | 0 <= j < |txs[1..]|
        ensures HasHash(t.transactions, txs[1..][j].hash) && !Fails(f, t, FindHash(txs[1..][j].hash))
      {
        assert txs[1..][j] == txs[j + 1];
      }
      InsertMissingPresent(t, f, txs[1..]);
    }
  }

  /** When every hash is already stored, the inner loop writes nothing and inserts
      nothing, whatever the store's faults; it completes exactly when none of the
      lookups fails. */
  lemma {:induction false} InsertMissingAllStored(t: Tables, f: Faults, txs: seq<BtcTx>)
    requires forall j :: 0 <= j < |txs| ==> HasHash(t.transactions, txs[j].hash)
    ensures InsertMissing(t, f, txs).run.tables == t && InsertMissing(t, f, txs).inserted == 0
    ensures InsertMissing(t, f, txs).run.outcome.Completed? <==>
      forall j :: 0 <= j < |txs| ==> !Fails(f, t, FindHash(txs[j].hash))
    decreases |txs|
  {
    if |txs| > 0 {
      InsertMissingStep(t, f, txs);
      if !Fails(f, t, FindHash(txs[0].hash)) {
        assert FindByHash(t, f, txs[0].hash) == Found;
        forall j | 0 <= j < |txs[1..]|
          ensures HasHash(t.transactions, txs[1..][j].hash)
        {
          assert txs[1..][j] == txs[j + 1];
        }
        InsertMissingAllStored(t, f, txs[1..]);
        if InsertMissing(t, f, txs).run.outcome.Completed? {
          forall j | 0 <= j < |txs|
            ensures !Fails(f, t, FindHash(txs[j].hash))
          {
            if j > 0 {
              assert txs[1..][j - 1] == txs[j];
            }
          }
        } else {
          var j :| 0 <= j < |txs[1..]| && Fails(f, t, FindHash(txs[1..][j].hash));
          assert txs[1..][j] == txs[j + 1];
        }
      }
    }
  }

  // ---------------------------------------------------------------------------
  // One height of Check

  /** What one height of Check does: on completion it reports the height, the number
      inserted (at most the block's transaction count) and that count, and inserts the
      block again; on an abort it reports nothing and stores no block. */
  lemma CheckHeightEffect(t: Tables, f: Faults, node: BtcNode, h: int)
    ensures var c := CheckHeight(t, f, node, h);
      && c.run.tables.receipts == t.receipts && c.run.tables.txInfos == t.txInfos && c.run.tables.states == t.states
      && (c.run.outcome.Aborted? <==> c.reports == [])
      && (c.run.outcome.Aborted? ==> c.run.tables.blocks == t.blocks)
      && (c.run.outcome.Completed? ==>
            && FetchBlock(node, h).Some?
            && var b := UseRawTx(FetchBlock(node, h).value);
               var p := InsertMissing(t, f, b.tx);
               && p.run.outcome.Completed?
               && c.reports == [HeightReport(h, p.inserted, |b.tx|)]
               && p.inserted <= |b.tx|
               && c.run.tables.transactions == p.run.tables.transactions
               && c.run.tables.blocks == t.blocks + [BlockDoc(b)])
  {
    if FetchBlock(node, h).Some? {
      var b := UseRawTx(FetchBlock(node, h).value);
      InsertMissingEffect(t, f, b.tx);
    }
  }

  /** A failed lookup of the block's first transaction aborts Check with nothing written. */
  lemma LookupErrorAborts(t: Tables, f: Faults, node: BtcNode, h: int)
    requires FetchBlock(node, h).Some? && |UseRawTx(FetchBlock(node, h).value).tx| > 0
    requires Fails(f, t, FindHash(UseRawTx(FetchBlock(node, h).value).tx[0].hash))
    ensures CheckHeight(t, f, node, h) == CheckRun(Run(t, Aborted(StoreError)), [])
  {
  }

  /** Checking a height a second time inserts no transaction: the first pass stored
      every hash of the block. */
  lemma CheckTwice(t: Tables, f: Faults, node: BtcNode, h: int)
    requires CheckHeight(t, f, node, h).run.outcome.Completed?
    ensures var t1 := CheckHeight(t, f, node, h).run.tables;
      var c2 := CheckHeight(t1, f, node, h);
      && c2.run.tables.transactions == t1.transactions
      && forall k :: 0 <= k < |c2.reports| ==> c2.reports[k].inserted == 0
  {
    CheckHeightEffect(t, f, node, h);
    var t1 := CheckHeight(t, f, node, h).run.tables;
    var b := UseRawTx(FetchBlock(node, h).value);
    InsertMissingCovers(t, f, b.tx);
    InsertMissingAllStored(t1, f, b.tx);
  }

  // ---------------------------------------------------------------------------
  // The height loop of Check

  /** What a run of Check's loop over `lo .. hi - 1`, started from `t` with the
      reports `done`, has produced in `c`: `done` followed by one report per finished
      height, in order of height from `lo`, each with at most as many inserted as
      the block has; one block inserted again per finished height; all heights
      finished when it completed; receipts, txInfos and states untouched. */
  ghost predicate Reported(t: Tables, done: seq<HeightReport>, lo: int, hi: int, c: CheckRun)
  {
    && |c.reports| >= |done| && c.reports[..|done|] == done
    && (forall k :: |done| <= k < |c.reports| ==> c.reports[k].height == lo + k - |done| && c.reports[k].inserted <= c.reports[k].total)
    && |c.run.tables.blocks| == |t.blocks| + |c.reports| - |done|
    && (c.run.outcome.Completed? ==> |c.reports| - |done| == if hi <= lo then 0 else hi - lo)
    && KeepsOthers(t, c.run.tables)
  }

  lemma ReportedNothing(t: Tables, done: seq<HeightReport>, lo: int, hi: int, c: CheckRun)
    requires c.reports == done && c.run.tables.blocks == t.blocks && KeepsOthers(t, c.run.tables)
    requires c.run.outcome.Completed? ==> hi <= lo
    ensures Reported(t, done, lo, hi, c)
  {
    assert done[..|done|] == done;
  }

  lemma ReportedStep(t: Tables, t1: Tables, done: seq<HeightReport>, report: HeightReport, lo: int, hi: int, c: CheckRun)
    requires lo < hi && report.height == lo && report.inserted <= report.total
    requires |t1.blocks| == |t.blocks| + 1 && KeepsOthers(t, t1)
    requires Reported(t1, done + [report], lo + 1, hi, c)
    ensures Reported(t, done, lo, hi, c)
  {
    var done' := done + [report];
    assert c.reports[..|done|] == c.reports[..|done'|][..|done|];
    assert c.reports[|done|] == c.reports[..|done'|][|done|] == report;
  }

  /** The reports of Check's loop over `lo .. hi - 1` (see Reported). */
  lemma {:induction false} CheckRangeReports(t: Tables, f: Faults, node: BtcNode, lo: int, hi: int, done: seq<HeightReport>)
    ensures Reported(t, done, lo, hi, CheckRange(t, f, node, lo, hi, done))
    decreases hi - lo
  {
    var c := CheckRange(t, f, node, lo, hi, done);
    if lo >= hi {
      ReportedNothing(t, done, lo, hi, c);
    } else {
      CheckRangeStep(t, f, node, lo, hi, done);
      CheckHeightEffect(t, f, node, lo);
      var c1 := CheckHeight(t, f, node, lo);
      if c1.run.outcome.Aborted? {
        ReportedNothing(t, done, lo, hi, c);
      } else {
        CheckRangeReports(c1.run.tables, f, node, lo + 1, hi, done + c1.reports);
        ReportedStep(t, c1.run.tables, done, c1.reports[0], lo, hi, c);
      }
    }
  }

  /** Check runs its loop over `0 .. localLatest`: it reports the heights `0, 1, ...`
      in order, all of them when it completes, and re-inserts one block per reported
      height (see Reported). */
  lemma CheckAllReports(t: Tables, f: Faults, node: BtcNode, localLatest: int64)
    requires LocalLatest(t, f) == Ok(localLatest)
    ensures CheckAll(t, f, node) == CheckRange(t, f, node, 0, localLatest as int + 1, [])
    ensures Reported(t, [], 0, localLatest as int + 1, CheckAll(t, f, node))
  {
    CheckRangeReports(t, f, node, 0, localLatest as int + 1, []);
  }

  // ---------------------------------------------------------------------------
  // Check run twice

  /** The transactions that Check reads for height `h`: the block's list after the
      raw-list fallback, none when the block cannot be fetched. */
  function BlockTxs(node: BtcNode, h: int): seq<BtcTx>
  {
    if FetchBlock(node, h).Some? then UseRawTx(FetchBlock(node, h).value).tx else []
  }

  /** `txs` holds the hash of every transaction of the heights `lo .. hi - 1`. */
  ghost predicate Stored(txs: seq<Document>, node: BtcNode, lo: int, hi: int)
  {
    forall h, j :: lo <= h < hi && 0 <= j < |BlockTxs(node, h)| ==> HasHash(txs, BlockTxs(node, h)[j].hash)
  }

  /** `b` starts with `a`. */
  ghost predicate Extends(a: seq<Document>, b: seq<Document>)
  {
    |a| <= |b| && b[..|a|] == a
  }

  lemma ExtendsChain(a: seq<Document>, b: seq<Document>, c: seq<Document>)
    requires Extends(a, b) && Extends(b, c)
    ensures Extends(a, c)
  {
    assert c[..|a|] == c[..|b|][..|a|];
  }

  /** One height of Check only appends to the transaction collection. */
  lemma CheckHeightExtends(t: Tables, f: Faults, node: BtcNode, h: int)
    ensures Extends(t.transactions, CheckHeight(t, f, node, h).run.tables.transactions)
  {
    if FetchBlock(node, h).Some? {
      InsertMissingEffect(t, f, UseRawTx(FetchBlock(node, h).value).tx);
    } else {
      assert t.transactions[..|t.transactions|] == t.transactions;
    }
  }

  /** Check's loop over `lo .. hi - 1` only appends to the transaction collection,
      and when it completes every transaction of those heights is stored. */
  lemma {:induction false} CheckRangeCovers(t: Tables, f: Faults, node: BtcNode, lo: int, hi: int, done: seq<HeightReport>)
    ensures Extends(t.transactions, CheckRange(t, f, node, lo, hi, done).run.tables.transactions)
    ensures CheckRange(t, f, node, lo, hi, done).run.outcome.Completed? ==>
      Stored(CheckRange(t, f, node, lo, hi, done).run.tables.transactions, node, lo, hi)
    decreases hi - lo
  {
    var c := CheckRange(t, f, node, lo, hi, done);
    if lo >= hi {
      assert t.transactions[..|t.transactions|] == t.transactions;
    } else {
      CheckRangeStep(t, f, node, lo, hi, done);
      CheckHeightExtends(t, f, node, lo);
      var c1 := CheckHeight(t, f, node, lo);
      if c1.run.outcome.Completed? {
        var t1 := c1.run.tables;
        CheckRangeCovers(t1, f, node, lo + 1, hi, done + c1.reports);
        ExtendsChain(t.transactions, t1.transactions, c.run.tables.transactions);
        if c.run.outcome.Completed? {
          CheckHeightEffect(t, f, node, lo);
          var b := UseRawTx(FetchBlock(node, lo).value);
          InsertMissingCovers(t, f, b.tx);
          forall h, j | lo <= h < hi && 0 <= j < |BlockTxs(node, h)|
            ensures HasHash(c.run.tables.transactions, BlockTxs(node, h)[j].hash)
          {
            if h == lo {
              HasHashKept(t1.transactions, c.run.tables.transactions, b.tx[j].hash);
            }
          }
        }
      }
    }
  }

  /** One height of Check whose transactions are all stored leaves the transaction
      collection as it is and reports nothing inserted. */
  lemma CheckHeightAllStored(t: Tables, f: Faults, node: BtcNode, h: int)
    requires forall j :: 0 <= j < |BlockTxs(node, h)| ==> HasHash(t.transactions, BlockTxs(node, h)[j].hash)
    ensures CheckHeight(t, f, node, h).run.tables.transactions == t.transactions
    ensures forall k :: 0 <= k < |CheckHeight(t, f, node, h).reports| ==> CheckHeight(t, f, node, h).reports[k].inserted == 0
  {
    if FetchBlock(node, h).Some? {
      var b := UseRawTx(FetchBlock(node, h).value);
      assert b.tx == BlockTxs(node, h);
      InsertMissingAllStored(t, f, b.tx);
    }
  }

  /** Check's loop over heights whose transactions are all stored leaves the
      transaction collection as it is and reports nothing inserted, whatever the
      store's faults. */
  lemma {:induction false} CheckRangeAllStored(t: Tables, f: Faults, node: BtcNode, lo: int, hi: int, done: seq<HeightReport>)
    requires Stored(t.transactions, node, lo, hi)
    ensures CheckRange(t, f, node, lo, hi, done).run.tables.transactions == t.transactions
    ensures forall k :: |done| <= k < |CheckRange(t, f, node, lo, hi, done).reports| ==>
      CheckRange(t, f, node, lo, hi, done).reports[k].inserted == 0
    decreases hi - lo
  {
    var c := CheckRange(t, f, node, lo, hi, done);
    if lo >= hi {
    } else {
      CheckRangeStep(t, f, node, lo, hi, done);
      var c1 := CheckHeight(t, f, node, lo);
      CheckHeightAllStored(t, f, node, lo);
      if c1.run.outcome.Completed? {
        assert Stored(c1.run.tables.transactions, node, lo + 1, hi);
        var done' := done + c1.reports;
        CheckRangeAllStored(c1.run.tables, f, node, lo + 1, hi, done');
        CheckRangeReports(c1.run.tables, f, node, lo + 1, hi, done');
        forall k | |done| <= k < |done'|
          ensures c.reports[k].inserted == 0
        {
          assert c.reports[k] == c.reports[..|done'|][k] == c1.reports[k - |done|];
        }
      }
    }
  }

  /** Check's loop run a second time over the same heights, on the store that a
      completed first run left, inserts no transaction. */
  lemma CheckRangeTwice(t: Tables, f: Faults, node: BtcNode, lo: int, hi: int)
    requires CheckRange(t, f, node, lo, hi, []).run.outcome.Completed?
    ensures var t1 := CheckRange(t, f, node, lo, hi, []).run.tables;
      var c2 := CheckRange(t1, f, node, lo, hi, []);
      && c2.run.tables.transactions == t1.transactions
      && forall k :: 0 <= k < |c2.reports| ==> c2.reports[k].inserted == 0
  {
    var t1 := CheckRange(t, f, node, lo, hi, []).run.tables;
    CheckRangeCovers(t, f, node, lo, hi, []);
    CheckRangeAllStored(t1, f, node, lo, hi, []);
  }

  /** The effect of one height of Check on the block collection, for an honest
      node: one block of that height appended, or nothing. */
  lemma CheckHeightBlock(t: Tables, f: Faults, node: BtcNode, h: int)
    requires Honest(node, h)
    ensures var c := CheckHeight(t, f, node, h);
      if c.run.outcome.Completed? then |c.run.tables.blocks| == |t.blocks| + 1 && AppendedFrom(t.blocks, c.run.tables.blocks, h)
      else c.run.tables.blocks == t.blocks
  {
    CheckHeightEffect(t, f, node, h);
    var c := CheckHeight(t, f, node, h);
    if c.run.outcome.Completed? {
      var b := UseRawTx(FetchBlock(node, h).value);
      BlockDocEffect(b);
      assert c.run.tables.blocks[|t.blocks|] == BlockDoc(b);
      assert c.run.tables.blocks[..|t.blocks|] == t.blocks;
    }
  }

  /** The blocks that Check's loop over `lo .. hi - 1` inserts again, for an honest
      node: consecutive heights from `lo`, after the blocks already stored. */
  lemma {:induction false} CheckRangeAscending(t: Tables, f: Faults, node: BtcNode, lo: int, hi: int, done: seq<HeightReport>)
    requires forall h :: lo <= h < hi ==> Honest(node, h)
    ensures AppendedFrom(t.blocks, CheckRange(t, f, node, lo, hi, done).run.tables.blocks, lo)
    decreases hi - lo
  {
    var c := CheckRange(t, f, node, lo, hi, done);
    if lo >= hi {
      assert t.blocks[..|t.blocks|] == t.blocks;
    } else {
      CheckRangeStep(t, f, node, lo, hi, done);
      CheckHeightBlock(t, f, node, lo);
      var c1 := CheckHeight(t, f, node, lo);
      if c1.run.outcome.Completed? {
        CheckRangeAscending(c1.run.tables, f, node, lo + 1, hi, done + c1.reports);
        AppendedChain(t.blocks, c1.run.tables.blocks, c.run.tables.blocks, lo);
      } else {
        assert t.blocks[..|t.blocks|] == t.blocks;
      }
    }
  }

  /** Blocks of the heights `0, 1, ...`, at most `bound + 1` of them, appended to
      blocks of int64 heights at most `bound`, keep every height an int64 at most
      `bound`. */
  lemma AppendedBelow(before: seq<Document>, after: seq<Document>, bound: int)
    requires forall i :: 0 <= i < |before| ==> Get(before[i], "height").Int64? && Get(before[i], "height").i64 <= bound
    requires AppendedFrom(before, after, 0)
    requires |after| <= |before| + if bound < 0 then 0 else bound + 1
    ensures forall i :: 0 <= i < |after| ==> Get(after[i], "height").Int64? && Get(after[i], "height").i64 <= bound
  {
    forall i | 0 <= i < |after|
      ensures Get(after[i], "height").Int64? && Get(after[i], "height").i64 <= bound
    {
      if i < |before| {
        assert after[i] == after[..|before|][i];
      } else {
        assert HeightIs(after[i], i - |before|);
      }
    }
  }

  /** Inserting again blocks of the heights `0 .. localLatest` leaves the
      checkpoint where it was. */
  lemma RecheckedKeepsLatest(t: Tables, t1: Tables, f: Faults, localLatest: int64)
    requires !Fails(f, t, Count(BlockColl)) && !Fails(f, t, Find(BlockColl))
    requires !Fails(f, t1, Count(BlockColl)) && !Fails(f, t1, Find(BlockColl))
    requires forall i :: 0 <= i < |t.blocks| ==> Get(t.blocks[i], "height").Int64?
    requires LocalLatest(t, f) == Ok(localLatest)
    requires AppendedFrom(t.blocks, t1.blocks, 0)
    requires |t1.blocks| <= |t.blocks| + if localLatest < 0 then 0 else localLatest as int + 1
    ensures LocalLatest(t1, f) == Ok(localLatest)
  {
    if |t.blocks| == 0 {
      assert |t1.blocks| == 0;
    } else {
      LocalLatestIsMaximum(t, f);
      AppendedBelow(t.blocks, t1.blocks, localLatest as int);
      LocalLatestIsMaximum(t1, f);
      var m := LocalLatest(t1, f).value;
      var i :| 0 <= i < |t1.blocks| && Get(t1.blocks[i], "height").i64 == m;
      assert m <= localLatest;
      var j :| 0 <= j < |t.blocks| && Get(t.blocks[j], "height").i64 == localLatest;
      assert t1.blocks[j] == t1.blocks[..|t.blocks|][j];
      assert localLatest <= m;
    }
  }

  /** Check run a second time, on the store that a completed first Check left,
      resolves the same checkpoint and inserts no transaction. */
  lemma CheckAllTwice(t: Tables, f: Faults, node: BtcNode)
    requires forall n :: !f(Count(BlockColl), n) && !f(Find(BlockColl), n)
    requires forall i :: 0 <= i < |t.blocks| ==> Get(t.blocks[i], "height").Int64?
    requires forall h :: Honest(node, h)
    requires CheckAll(t, f, node).run.outcome.Completed?
    ensures var t1 := CheckAll(t, f, node).run.tables;
      var c2 := CheckAll(t1, f, node);
      && LocalLatest(t1, f) == LocalLatest(t, f)
      && c2.run.tables.transactions == t1.transactions
      && forall k :: 0 <= k < |c2.reports| ==> c2.reports[k].inserted == 0
  {
    var t1 := CheckAll(t, f, node).run.tables;
    assert !Fails(f, t, Count(BlockColl)) && !Fails(f, t, Find(BlockColl));
    assert !Fails(f, t1, Count(BlockColl)) && !Fails(f, t1, Find(BlockColl));
    var l := LocalLatest(t, f).value;
    CheckAllReports(t, f, node, l);
    CheckRangeAscending(t, f, node, 0, l as int + 1, []);
    RecheckedKeepsLatest(t, t1, f, l);
    CheckAllReports(t1, f, node, l);
    CheckRangeTwice(t, f, node, 0, l as int + 1);
  }
}
