/** Properties of the Tron sync manager: the checkpoint, the safe height, what one
    height writes and in which order, and the heights that Preload appends. */
module TronLemmas {
  import opened Wrappers
  import opened Bson
  import opened Store
  import opened Tron
  import Eth
  import EthLemmas

  // ---------------------------------------------------------------------------
  // Documents

  /** The stored block has a null transaction list and keeps every other field,
      among them the header that carries its number. */
  lemma BlockDocEffect(b: TronBlock)
    ensures Get(BlockDoc(Cleared(b)), "transactions") == Null
    ensures forall k :: k in b.fields && k != "transactions" ==> k in BlockDoc(Cleared(b)) && BlockDoc(Cleared(b))[k] == b.fields[k]
    ensures BlockNumber(BlockDoc(Cleared(b))) == BlockNumber(b.fields)
  {
    assert Get(BlockDoc(Cleared(b)), "block_header") == Get(b.fields, "block_header");
  }

  /** A stored transaction list: null when empty, otherwise one embedded document per
      transaction, in order. */
  lemma TxListEffect(txs: seq<Document>)
    ensures TxList(txs).Null? <==> |txs| == 0
    ensures |txs| > 0 ==> TxList(txs).List? && |TxList(txs).items| == |txs|
    ensures |txs| > 0 ==> forall i :: 0 <= i < |txs| ==> TxList(txs).items[i] == Doc(txs[i])
  {
  }

  // ---------------------------------------------------------------------------
  // Checkpoint and safe height

  /** The number that the checkpoint decodes is the key that the store sorted on. */
  lemma BlockNumberIsSortKey(d: Document)
    requires BlockNumber(d).Ok?
    ensures BlockNumber(d).value == PathValue(d, NumberPath)
  {
  }

  /** When every stored block carries an integer number in the int64 range, the
      checkpoint is the largest of them. */
  lemma LocalLatestIsMaximum(t: Tables, f: Faults)
    requires !Fails(f, t, Count(BlockColl)) && !Fails(f, t, Find(BlockColl))
    requires |t.blocks| > 0
    requires forall i :: 0 <= i < |t.blocks| ==> BlockNumber(t.blocks[i]).Ok? && EthLemmas.IntegerHeight(BlockNumber(t.blocks[i]).value)
    ensures LocalLatest(t, f).Ok?
    ensures forall i :: 0 <= i < |t.blocks| ==> NumericValue(BlockNumber(t.blocks[i]).value) <= LocalLatest(t, f).value as real
    ensures exists i :: 0 <= i < |t.blocks| && NumericValue(BlockNumber(t.blocks[i]).value) == LocalLatest(t, f).value as real
  {
    var k := TopIndex(t.blocks, NumberPath);
    BlockNumberIsSortKey(t.blocks[k]);
    var top := BlockNumber(t.blocks[k]).value;
    assert LocalLatest(t, f) == Eth.DecodeHeight(top);
    forall i | 0 <= i < |t.blocks|
      ensures NumericValue(BlockNumber(t.blocks[i]).value) <= NumericValue(top)
    {
      BlockNumberIsSortKey(t.blocks[i]);
      assert SortLe(PathValue(t.blocks[i], NumberPath), PathValue(t.blocks[k], NumberPath));
    }
  }

  /** A non-empty store whose blocks have no header document cannot be resumed: the
      checkpoint aborts on the type assertion. */
  lemma HeaderlessStoreAborts(t: Tables, f: Faults)
    requires !Fails(f, t, Count(BlockColl)) && !Fails(f, t, Find(BlockColl))
    requires |t.blocks| > 0
    requires forall i :: 0 <= i < |t.blocks| ==> !Get(t.blocks[i], "block_header").Doc?
    ensures LocalLatest(t, f) == Err(BadType)
  {
    var k := TopIndex(t.blocks, NumberPath);
    assert !Get(t.blocks[k], "block_header").Doc?;
  }

  /** An empty store starts Preload at height 0. */
  lemma EmptyStoreStartsAtZero(t: Tables, f: Faults)
    requires |t.blocks| == 0 && !Fails(f, t, Count(BlockColl))
    ensures LocalLatest(t, f) == Ok(-1)
    ensures Eth.StartHeight(LocalLatest(t, f).value) == 0
  {
  }

  /** The safe height is the remote tip rounded down to a multiple of 1000. */
  lemma SafeHeightBounds(remoteLatest: uint64)
    ensures SafeHeight(remoteLatest) % 1000 == 0
    ensures SafeHeight(remoteLatest) <= remoteLatest < SafeHeight(remoteLatest) + 1000
  {
  }

  // ---------------------------------------------------------------------------
  // One height

  /** The transaction infos that height `h` writes with transactions `txs`. */
  function WrittenInfos(node: TronNode, h: uint64, txs: seq<Document>): seq<Document>
  {
    if |txs| == 0 || h == 0 then [] else node.txInfosByNumber(h)
  }

  /** The store after the transactions of a height are written. */
  function WithTxs(t: Tables, txs: seq<Document>): Tables
  {
    t.(transactions := t.transactions + txs)
  }

  /** The store after the transactions and then the infos of a height are written. */
  function WithTxsAndInfos(t: Tables, node: TronNode, h: uint64, txs: seq<Document>): Tables
  {
    WithTxs(t, txs).(txInfos := t.txInfos + WrittenInfos(node, h, txs))
  }

  /** The writes of one height happen in order: transactions, then transaction infos,
      then the block. An abort leaves the store after some prefix of that order, a
      completed height after all of it; receipts and states are never touched. */
  lemma IngestWritesInOrder(t: Tables, f: Faults, node: TronNode, h: uint64)
    ensures var r := Ingest(t, f, node, h);
      && r.tables.receipts == t.receipts && r.tables.states == t.states
      && (node.httpBlockByNumber(h).None? ==> r == Run(t, Aborted(RpcError)))
      && (node.httpBlockByNumber(h).Some? ==>
            var txs := node.httpBlockByNumber(h).value.transactions;
            && (r.outcome.Aborted? ==>
                  r.tables == t || r.tables == WithTxs(t, txs) || r.tables == WithTxsAndInfos(t, node, h, txs))
            && (r.outcome.Completed? ==>
                  r.tables == WithTxsAndInfos(t, node, h, txs).(blocks := t.blocks + [BlockDoc(Cleared(node.httpBlockByNumber(h).value))])))
  {
    if node.httpBlockByNumber(h).Some? {
      var txs := node.httpBlockByNumber(h).value.transactions;
      if |txs| == 0 {
        assert WithTxsAndInfos(t, node, h, txs) == t;
      } else if h == 0 {
        assert WithTxsAndInfos(t, node, h, txs) == WithTxs(t, txs);
      } else if |node.txInfosByNumber(h)| == 0 {
        assert WithTxsAndInfos(t, node, h, txs) == WithTxs(t, txs);
      }
    }
  }

  /** What a completed height wrote: its block with a null transaction list, its
      transactions, and its transaction infos (see WrittenInfos). */
  lemma IngestWrites(t: Tables, f: Faults, node: TronNode, h: uint64)
    requires Ingest(t, f, node, h).outcome.Completed?
    ensures node.httpBlockByNumber(h).Some?
    ensures var b := node.httpBlockByNumber(h).value;
      var r := Ingest(t, f, node, h);
      && r.tables.blocks == t.blocks + [BlockDoc(Cleared(b))]
      && r.tables.transactions == t.transactions + b.transactions
      && r.tables.txInfos == t.txInfos + WrittenInfos(node, h, b.transactions)
  {
    IngestWritesInOrder(t, f, node, h);
  }

  /** A block without transactions, and the block of height 0, never ask for
      transaction infos: the answer of GetTxInfosByNumber does not matter and none
      are written. */
  lemma TxInfosOnlyWhenNeeded(t: Tables, f: Faults, node: TronNode, h: uint64, other: uint64 -> seq<Document>)
    requires node.httpBlockByNumber(h).Some?
    requires |node.httpBlockByNumber(h).value.transactions| == 0 || h == 0
    ensures Ingest(t, f, node, h) == Ingest(t, f, node.(txInfosByNumber := other), h)
    ensures Ingest(t, f, node, h).tables.txInfos == t.txInfos
  {
    IngestWritesInOrder(t, f, node, h);
  }

  /** An empty (or nil) answer of GetTxInfosByNumber writes no infos and does not
      stop the height: once the transactions are written, the block is stored. */
  lemma EmptyInfosStillStoreBlock(t: Tables, f: Faults, node: TronNode, h: uint64)
    requires node.httpBlockByNumber(h).Some? && |node.httpBlockByNumber(h).value.transactions| > 0
    requires |node.txInfosByNumber(h)| == 0
    ensures Ingest(t, f, node, h).tables.txInfos == t.txInfos
    ensures var b := node.httpBlockByNumber(h).value;
      var afterTxs := WithTxs(t, b.transactions);
      !Fails(f, t, Write(TransactionColl)) && !Fails(f, afterTxs, Write(BlockColl)) ==>
        Ingest(t, f, node, h) == Run(afterTxs.Append(BlockColl, [BlockDoc(Cleared(b))]), Completed)
  {
  }

  // ---------------------------------------------------------------------------
  // The height loop

  /** Receipts and states are the same in both tables. */
  predicate KeepsOthers(a: Tables, b: Tables)
  {
    b.receipts == a.receipts && b.states == a.states
  }

  /** `d` is a block document whose number the checkpoint decodes to `h`. */
  predicate NumberIs(d: Document, h: int)
  {
    BlockNumber(d).Ok? && Eth.DecodeHeight(BlockNumber(d).value).Ok? && Eth.DecodeHeight(BlockNumber(d).value).value == h
  }

  /** The node answers height `h` with a block numbered `h`. */
  predicate Honest(node: TronNode, h: uint64)
  {
    node.httpBlockByNumber(h).Some? ==> NumberIs(node.httpBlockByNumber(h).value.fields, h)
  }

  /** `after` is `before` followed by blocks of consecutive numbers from `lo`. */
  ghost predicate AppendedFrom(before: seq<Document>, after: seq<Document>, lo: int)
  {
    && |after| >= |before|
    && after[..|before|] == before
    && forall i :: |before| <= i < |after| ==> NumberIs(after[i], lo + i - |before|)
  }

  lemma AppendedChain(a: seq<Document>, b: seq<Document>, c: seq<Document>, lo: int)
    requires |b| == |a| + 1 && AppendedFrom(a, b, lo) && AppendedFrom(b, c, lo + 1)
    ensures AppendedFrom(a, c, lo)
  {
    assert c[..|a|] == c[..|b|][..|a|];
    forall i | |a| <= i < |c|
      ensures NumberIs(c[i], lo + i - |a|)
    {
      if i == |a| {
        assert c[i] == c[..|b|][i];
      }
    }
  }

  /** The effect of one height on the block collection, for an honest node: one
      block of that number appended, or nothing. */
  lemma IngestBlock(t: Tables, f: Faults, node: TronNode, h: uint64)
    requires Honest(node, h)
    ensures var r := Ingest(t, f, node, h);
      && KeepsOthers(t, r.tables)
      && if r.outcome.Completed? then |r.tables.blocks| == |t.blocks| + 1 && AppendedFrom(t.blocks, r.tables.blocks, h)
         else r.tables.blocks == t.blocks
  {
    IngestWritesInOrder(t, f, node, h);
    var r := Ingest(t, f, node, h);
    if r.outcome.Completed? {
      var b := node.httpBlockByNumber(h).value;
      BlockDocEffect(b);
      assert r.tables.blocks[|t.blocks|] == BlockDoc(Cleared(b));
      assert r.tables.blocks[..|t.blocks|] == t.blocks;
    }
  }

  /** What a run `r` of the height loop over `start .. safe - 1`, started from `t`,
      has done: appended blocks of consecutive numbers from `start`, all of them when
      it completed, and left receipts and states as they were. */
  ghost predicate Preloaded(t: Tables, start: int, safe: int, r: Run)
  {
    && KeepsOthers(t, r.tables)
    && AppendedFrom(t.blocks, r.tables.blocks, start)
    && (r.outcome.Completed? ==> |r.tables.blocks| - |t.blocks| == if safe <= start then 0 else safe - start)
  }

  /** A height that appended one block, followed by a run of the rest of the loop. */
  lemma PreloadedStep(t: Tables, t1: Tables, lo: int, hi: int, r: Run)
    requires lo < hi && |t1.blocks| == |t.blocks| + 1
    requires KeepsOthers(t, t1) && AppendedFrom(t.blocks, t1.blocks, lo)
    requires Preloaded(t1, lo + 1, hi, r)
    ensures Preloaded(t, lo, hi, r)
  {
    AppendedChain(t.blocks, t1.blocks, r.tables.blocks, lo);
  }

  /** The blocks that the loop over `lo .. hi - 1` appends, for an honest node:
      consecutive numbers from `lo`, all of them when the run completes; the blocks
      already stored, the receipts and the states are kept (see Preloaded). */
  lemma {:induction false} IngestRangeAscending(t: Tables, f: Faults, node: TronNode, lo: uint64, hi: uint64)
    requires forall h: uint64 :: lo <= h < hi ==> Honest(node, h)
    ensures Preloaded(t, lo, hi, IngestRange(t, f, node, lo, hi))
    decreases hi - lo
  {
    assert t.blocks[..|t.blocks|] == t.blocks;
    if lo < hi {
      IngestRangeStep(t, f, node, lo, hi);
      var r1 := Ingest(t, f, node, lo);
      IngestBlock(t, f, node, lo);
      if r1.outcome.Completed? {
        IngestRangeAscending(r1.tables, f, node, lo + 1, hi);
        PreloadedStep(t, r1.tables, lo, hi, IngestRange(r1.tables, f, node, lo + 1, hi));
      }
    }
  }

  /** Two nodes that answer alike on `lo .. hi - 1` give the same run of the loop:
      no other height is fetched. */
  lemma {:induction false} IngestRangeAgrees(t: Tables, f: Faults, node: TronNode, other: TronNode, lo: uint64, hi: uint64)
    requires forall h: uint64 :: lo <= h < hi ==>
      node.httpBlockByNumber(h) == other.httpBlockByNumber(h) && node.txInfosByNumber(h) == other.txInfosByNumber(h)
    ensures IngestRange(t, f, node, lo, hi) == IngestRange(t, f, other, lo, hi)
    decreases hi - lo
  {
    if lo < hi {
      IngestRangeStep(t, f, node, lo, hi);
      IngestRangeStep(t, f, other, lo, hi);
      assert Ingest(t, f, node, lo) == Ingest(t, f, other, lo);
      var r1 := Ingest(t, f, node, lo);
      if r1.outcome.Completed? {
        IngestRangeAgrees(r1.tables, f, node, other, lo + 1, hi);
      }
    }
  }

  // ---------------------------------------------------------------------------
  // Preload

  /** Preload aborts without writing when the checkpoint or the remote tip cannot be
      read, and otherwise runs the height loop from the checkpoint. */
  lemma PreloadShape(t: Tables, f: Faults, node: TronNode, end: uint64)
    ensures LocalLatest(t, f).Err? ==> PreloadRun(t, f, node, end) == Run(t, Aborted(LocalLatest(t, f).why))
    ensures LocalLatest(t, f).Ok? && node.latestNumber.None? ==> PreloadRun(t, f, node, end) == Run(t, Aborted(RpcError))
    ensures LocalLatest(t, f).Ok? && node.latestNumber.Some? ==>
      PreloadRun(t, f, node, end) == PreloadFrom(t, f, node, LocalLatest(t, f).value, node.latestNumber.value)
  {
  }

  /** The `end` argument of Preload has no effect. */
  lemma PreloadIgnoresEnd(t: Tables, f: Faults, node: TronNode, end1: uint64, end2: uint64)
    ensures PreloadRun(t, f, node, end1) == PreloadRun(t, f, node, end2)
  {
  }

  /** Preload appends the heights from the checkpoint's successor up to, and not
      including, the safe height, in ascending order, all of them when it completes. */
  lemma PreloadHeights(t: Tables, f: Faults, node: TronNode, localLatest: int64, remoteLatest: uint64)
    requires forall h: uint64 :: Honest(node, h)
    ensures Preloaded(t, Eth.StartHeight(localLatest), SafeHeight(remoteLatest), PreloadFrom(t, f, node, localLatest, remoteLatest))
  {
    IngestRangeAscending(t, f, node, Eth.StartHeight(localLatest), SafeHeight(remoteLatest));
  }

  /** The safe height itself and every height above it are never fetched: a node that
      answers differently there gives the same Preload. */
  lemma PreloadStopsBeforeSafeHeight(t: Tables, f: Faults, node: TronNode, other: TronNode, localLatest: int64, remoteLatest: uint64)
    requires forall h: uint64 :: h < SafeHeight(remoteLatest) ==>
      node.httpBlockByNumber(h) == other.httpBlockByNumber(h) && node.txInfosByNumber(h) == other.txInfosByNumber(h)
    ensures PreloadFrom(t, f, node, localLatest, remoteLatest) == PreloadFrom(t, f, other, localLatest, remoteLatest)
  {
    IngestRangeAgrees(t, f, node, other, Eth.StartHeight(localLatest), SafeHeight(remoteLatest));
  }

  /** A checkpoint whose successor is at or past the safe height leaves the store as
      it is. */
  lemma PreloadCaughtUp(t: Tables, f: Faults, node: TronNode, localLatest: int64, remoteLatest: uint64)
    requires -1 <= localLatest && SafeHeight(remoteLatest) <= localLatest + 1
    ensures PreloadFrom(t, f, node, localLatest, remoteLatest) == Run(t, Completed)
  {
    assert Eth.StartHeight(localLatest) == localLatest + 1;
  }

  /** An empty store and a tip below 1000: the safe height is 0 and the loop bound is
      exclusive, so Preload writes nothing, not even height 0. */
  lemma FreshStoreLowTip(t: Tables, f: Faults, node: TronNode, end: uint64)
    requires |t.blocks| == 0 && !Fails(f, t, Count(BlockColl))
    requires node.latestNumber.Some? && node.latestNumber.value < 1000
    ensures PreloadRun(t, f, node, end) == Run(t, Completed)
  {
    PreloadShape(t, f, node, end);
    assert LocalLatest(t, f) == Ok(-1);
  }

  /** A checkpoint below -1 wraps its successor to at least 2^63: below such a tip
      Preload writes nothing at all. */
  lemma NegativeCheckpointSkips(t: Tables, f: Faults, node: TronNode, localLatest: int64, remoteLatest: uint64)
    requires localLatest < -1 && remoteLatest < 0x8000_0000_0000_0000
    ensures Eth.StartHeight(localLatest) == 0x1_0000_0000_0000_0000 + localLatest + 1
    ensures PreloadFrom(t, f, node, localLatest, remoteLatest) == Run(t, Completed)
  {
  }

  // ---------------------------------------------------------------------------
  // The checkpoint across Preload

  /** Blocks appended with consecutive numbers from `start` to blocks of integer
      numbers leave every number an integer one. */
  lemma AppendedIntegerNumbers(before: seq<Document>, after: seq<Document>, start: nat)
    requires forall i :: 0 <= i < |before| ==> BlockNumber(before[i]).Ok? && EthLemmas.IntegerHeight(BlockNumber(before[i]).value)
    requires AppendedFrom(before, after, start)
    ensures forall i :: 0 <= i < |after| ==> BlockNumber(after[i]).Ok? && EthLemmas.IntegerHeight(BlockNumber(after[i]).value)
  {
    forall i | 0 <= i < |after|
      ensures BlockNumber(after[i]).Ok? && EthLemmas.IntegerHeight(BlockNumber(after[i]).value)
    {
      if i < |before| {
        assert after[i] == after[..|before|][i];
      } else {
        assert NumberIs(after[i], start + i - |before|);
        EthLemmas.NonNegativeHeight(BlockNumber(after[i]).value);
      }
    }
  }

  /** A block kept at index `j` of the new collection bounds its checkpoint from below. */
  lemma KeptBelowLatest(t: Tables, after: Tables, f: Faults, j: nat)
    requires !Fails(f, after, Count(BlockColl)) && !Fails(f, after, Find(BlockColl))
    requires forall i :: 0 <= i < |after.blocks| ==> BlockNumber(after.blocks[i]).Ok? && EthLemmas.IntegerHeight(BlockNumber(after.blocks[i]).value)
    requires |after.blocks| >= |t.blocks| && after.blocks[..|t.blocks|] == t.blocks && j < |t.blocks|
    ensures LocalLatest(after, f).Ok?
    ensures NumericValue(BlockNumber(t.blocks[j]).value) <= LocalLatest(after, f).value as real
  {
    assert after.blocks[j] == after.blocks[..|t.blocks|][j];
    LocalLatestIsMaximum(after, f);
  }

  /** Appending blocks of consecutive numbers from `start` to a store of integer
      numbers never lowers its checkpoint. */
  lemma AppendedKeepsLatest(t: Tables, after: Tables, f: Faults, start: nat)
    requires !Fails(f, t, Count(BlockColl)) && !Fails(f, t, Find(BlockColl))
    requires !Fails(f, after, Count(BlockColl)) && !Fails(f, after, Find(BlockColl))
    requires forall i :: 0 <= i < |t.blocks| ==> BlockNumber(t.blocks[i]).Ok? && EthLemmas.IntegerHeight(BlockNumber(t.blocks[i]).value)
    requires AppendedFrom(t.blocks, after.blocks, start)
    ensures LocalLatest(t, f).Ok? && LocalLatest(after, f).Ok?
    ensures LocalLatest(after, f).value >= LocalLatest(t, f).value
  {
    if |after.blocks| == 0 {
      assert |t.blocks| == 0;
    } else {
      AppendedIntegerNumbers(t.blocks, after.blocks, start);
      if |t.blocks| > 0 {
        LocalLatestIsMaximum(t, f);
        var l := LocalLatest(t, f).value;
        var j :| 0 <= j < |t.blocks| && NumericValue(BlockNumber(t.blocks[j]).value) == l as real;
        KeptBelowLatest(t, after, f, j);
      } else {
        LocalLatestIsMaximum(after, f);
        assert NumberIs(after.blocks[0], start);
        EthLemmas.NonNegativeHeight(BlockNumber(after.blocks[0]).value);
        assert NumericValue(BlockNumber(after.blocks[0]).value) <= LocalLatest(after, f).value as real;
      }
    }
  }

  /** Preload never moves the checkpoint back, whatever aborts: the blocks already
      stored are kept, and the ones it appends carry the numbers from the
      checkpoint's successor on. */
  lemma CheckpointNeverDecreases(t: Tables, f: Faults, node: TronNode, end: uint64)
    requires forall n :: !f(Count(BlockColl), n) && !f(Find(BlockColl), n)
    requires forall i :: 0 <= i < |t.blocks| ==> BlockNumber(t.blocks[i]).Ok? && EthLemmas.IntegerHeight(BlockNumber(t.blocks[i]).value)
    requires forall h: uint64 :: Honest(node, h)
    ensures LocalLatest(t, f).Ok?
    ensures LocalLatest(PreloadRun(t, f, node, end).tables, f).Ok?
    ensures LocalLatest(PreloadRun(t, f, node, end).tables, f).value >= LocalLatest(t, f).value
  {
    var after := PreloadRun(t, f, node, end).tables;
    assert !Fails(f, t, Count(BlockColl)) && !Fails(f, t, Find(BlockColl));
    assert !Fails(f, after, Count(BlockColl)) && !Fails(f, after, Find(BlockColl));
    assert LocalLatest(t, f).Ok? by {
      if |t.blocks| > 0 {
        LocalLatestIsMaximum(t, f);
      }
    }
    var l := LocalLatest(t, f).value;
    PreloadShape(t, f, node, end);
    if node.latestNumber.Some? {
      PreloadHeights(t, f, node, l, node.latestNumber.value);
    } else {
      assert t.blocks[..|t.blocks|] == t.blocks;
    }
    AppendedKeepsLatest(t, after, f, Eth.StartHeight(l));
  }

  // ---------------------------------------------------------------------------
  // A gap-free store across Preload

  /** The block collection holds the numbers `0 .. |blocks| - 1`, each once, in
      order of insertion. */
  predicate GapFree(blocks: seq<Document>)
  {
    forall i :: 0 <= i < |blocks| ==> NumberIs(blocks[i], i)
  }

  /** The checkpoint of a gap-free store is its last number. */
  lemma GapFreeLatest(t: Tables, f: Faults)
    requires GapFree(t.blocks) && LocalLatest(t, f).Ok?
    ensures LocalLatest(t, f).value == |t.blocks| - 1
  {
    if |t.blocks| > 0 {
      assert !Fails(f, t, Count(BlockColl)) && !Fails(f, t, Find(BlockColl));
      forall i | 0 <= i < |t.blocks|
        ensures BlockNumber(t.blocks[i]).Ok? && EthLemmas.IntegerHeight(BlockNumber(t.blocks[i]).value)
        ensures NumericValue(BlockNumber(t.blocks[i]).value) == i as real
      {
        assert NumberIs(t.blocks[i], i);
        EthLemmas.NonNegativeHeight(BlockNumber(t.blocks[i]).value);
      }
      LocalLatestIsMaximum(t, f);
      var m := LocalLatest(t, f).value;
      var i :| 0 <= i < |t.blocks| && NumericValue(BlockNumber(t.blocks[i]).value) == m as real;
      assert NumericValue(BlockNumber(t.blocks[|t.blocks| - 1]).value) <= m as real;
    }
  }

  /** Appending the numbers from `|before|` on to a gap-free collection keeps it gap-free. */
  lemma AppendedGapFree(before: seq<Document>, after: seq<Document>)
    requires GapFree(before) && AppendedFrom(before, after, |before|)
    ensures GapFree(after)
  {
    forall i | 0 <= i < |after|
      ensures NumberIs(after[i], i)
    {
      if i < |before| {
        assert after[i] == after[..|before|][i];
      }
    }
  }

  /** The loop of Preload, started after the last number of a gap-free store, keeps it
      gap-free. */
  lemma PreloadFromKeepsGapFree(t: Tables, f: Faults, node: TronNode, localLatest: int64, remoteLatest: uint64)
    requires GapFree(t.blocks) && localLatest as int == |t.blocks| - 1
    requires forall h: uint64 :: Honest(node, h)
    ensures GapFree(PreloadFrom(t, f, node, localLatest, remoteLatest).tables.blocks)
  {
    assert Eth.StartHeight(localLatest) == |t.blocks|;
    PreloadHeights(t, f, node, localLatest, remoteLatest);
    AppendedGapFree(t.blocks, PreloadFrom(t, f, node, localLatest, remoteLatest).tables.blocks);
  }

  /** Preload keeps a gap-free store gap-free, whatever aborts: it resumes at the
      number after the last one stored. */
  lemma PreloadKeepsGapFree(t: Tables, f: Faults, node: TronNode, end: uint64)
    requires GapFree(t.blocks)
    requires forall h: uint64 :: Honest(node, h)
    ensures GapFree(PreloadRun(t, f, node, end).tables.blocks)
  {
    var blocks := PreloadRun(t, f, node, end).tables.blocks;
    PreloadShape(t, f, node, end);
    if LocalLatest(t, f).Ok? && node.latestNumber.Some? {
      var l := LocalLatest(t, f).value;
      GapFreeLatest(t, f);
      PreloadFromKeepsGapFree(t, f, node, l, node.latestNumber.value);
      assert blocks == PreloadFrom(t, f, node, l, node.latestNumber.value).tables.blocks;
    } else {
      assert blocks == t.blocks;
    }
  }
}
