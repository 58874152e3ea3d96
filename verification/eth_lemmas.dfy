/** What the Ethereum sync manager promises, proved about the model in module Eth. */
module EthLemmas {
  import opened Wrappers
  import opened Bson
  import opened Hexutil
  import opened Store
  import opened Eth

  // ---------------------------------------------------------------------------
  // Block tags

  /** The tag of a non-negative block number decodes back to that number. */
  lemma ToBlockNumArgRoundTrip(n: uint64)
    ensures DecodeUint64(ToBlockNumArg(Some(n))) == Some(n)
  {
    DecodeEncodeUint64(n);
  }

  /** Distinct block-number arguments get distinct tags. */
  lemma ToBlockNumArgInjective(a: Option<int>, b: Option<int>)
    requires ToBlockNumArg(a) == ToBlockNumArg(b)
    ensures a == b
  {
    if a.Some? && a.value != -1 && b.Some? && b.value != -1 {
      EncodeBigInjective(a.value, b.value);
    } else {
      // The first character tells the four kinds apart: 'l', 'p', '0' and '-'.
      assert ToBlockNumArg(a)[0] == ToBlockNumArg(b)[0];
    }
  }

  // ---------------------------------------------------------------------------
  // Checkpoint

  /** A stored height that the checkpoint decodes to its own value. */
  predicate IntegerHeight(v: Value)
  {
    v.Int64? || v.Int32? || v.Uint32? || (v.Uint64? && v.u64 < 0x8000_0000_0000_0000)
  }

  /** When every stored height is an integer in the int64 range, the checkpoint is
      the largest of them. */
  lemma LocalLatestIsMaximum(t: Tables, f: Faults)
    requires !Fails(f, t, Count(BlockColl)) && !Fails(f, t, Find(BlockColl))
    requires |t.blocks| > 0
    requires forall i :: 0 <= i < |t.blocks| ==> IntegerHeight(Get(t.blocks[i], "height"))
    ensures LocalLatest(t, f).Ok?
    ensures forall i :: 0 <= i < |t.blocks| ==> NumericValue(Get(t.blocks[i], "height")) <= LocalLatest(t, f).value as real
    ensures exists i :: 0 <= i < |t.blocks| && NumericValue(Get(t.blocks[i], "height")) == LocalLatest(t, f).value as real
  {
    var k := TopIndex(t.blocks, ["height"]);
    var top := Get(t.blocks[k], "height");
    assert PathValue(t.blocks[k], ["height"]) == top;
    assert LocalLatest(t, f) == DecodeHeight(top);
    forall i | 0 <= i < |t.blocks|
      ensures NumericValue(Get(t.blocks[i], "height")) <= NumericValue(top)
    {
      assert PathValue(t.blocks[i], ["height"]) == Get(t.blocks[i], "height");
      assert SortLe(PathValue(t.blocks[i], ["height"]), PathValue(t.blocks[k], ["height"]));
    }
  }

  /** An empty store starts Preload at height 0. */
  lemma EmptyStoreStartsAtZero(t: Tables, f: Faults)
    requires |t.blocks| == 0 && !Fails(f, t, Count(BlockColl))
    ensures LocalLatest(t, f) == Ok(-1)
    ensures StartHeight(LocalLatest(t, f).value) == 0
  {
  }

  // ---------------------------------------------------------------------------
  // One height

  /** A completed height wrote exactly: the block's transactions (each with the
      block's height), its receipts (likewise), then the block document. */
  lemma IngestWrites(t: Tables, f: Faults, node: EthNode, h: nat)
    requires Ingest(t, f, node, h).outcome.Completed?
    ensures var r := Ingest(t, f, node, h);
      var tag := ToBlockNumArg(Some(h));
      && FetchBlock(node, h).Some?
      && DecodeHeader(FetchBlock(node, h).value).Ok?
      && node.getBlockReceipts(tag).Some?
      && var block := FetchBlock(node, h).value;
         var hdr := DecodeHeader(block).value;
         var receipts := node.getBlockReceipts(tag).value;
         && |hdr.txs| == |receipts|
         && TxModels(hdr.txs, hdr.height).Some?
         && r.tables.transactions == t.transactions + TxModels(hdr.txs, hdr.height).value
         && r.tables.receipts == t.receipts + WithHeight(receipts, hdr.height)
         && r.tables.blocks == t.blocks + [BlockDoc(block, hdr)]
  {
    var tag := ToBlockNumArg(Some(h));
    match FetchBlock(node, h)
    case None => assert false;
    case Some(block) =>
      match DecodeHeader(block)
      case Err(_) => assert false;
      case Ok(hdr) =>
        match node.getBlockReceipts(tag)
        case None => assert false;
        case Some(receipts) => IngestWritesAt(t, f, node, h, block, hdr, receipts);
  }

  /** The writes of a completed height, once its block, header and receipts are known. */
  lemma IngestWritesAt(t: Tables, f: Faults, node: EthNode, h: nat, block: Document, hdr: Header, receipts: seq<Document>)
    requires FetchBlock(node, h) == Some(block) && DecodeHeader(block) == Ok(hdr)
    requires node.getBlockReceipts(ToBlockNumArg(Some(h))) == Some(receipts)
    requires Ingest(t, f, node, h).outcome.Completed?
    ensures var r := Ingest(t, f, node, h);
      && |hdr.txs| == |receipts|
      && TxModels(hdr.txs, hdr.height).Some?
      && r.tables.transactions == t.transactions + TxModels(hdr.txs, hdr.height).value
      && r.tables.receipts == t.receipts + WithHeight(receipts, hdr.height)
      && r.tables.blocks == t.blocks + [BlockDoc(block, hdr)]
  {
    if |hdr.txs| == 0 {
      assert t.transactions + [] == t.transactions;
      assert t.receipts + [] == t.receipts;
    }
  }

  /** What an aborted height leaves behind: the block is never written, and the
      transactions and receipts are either untouched, or the height's stamped
      transactions were appended, or those and then its stamped receipts were; the
      receipts are never written without the transactions. */
  lemma IngestWritesInOrder(t: Tables, f: Faults, node: EthNode, h: nat)
    requires Ingest(t, f, node, h).outcome.Aborted?
    ensures var r := Ingest(t, f, node, h);
      || r.tables == t
      || (&& FetchBlock(node, h).Some?
          && DecodeHeader(FetchBlock(node, h).value).Ok?
          && node.getBlockReceipts(ToBlockNumArg(Some(h))).Some?
          && var hdr := DecodeHeader(FetchBlock(node, h).value).value;
             var receipts := node.getBlockReceipts(ToBlockNumArg(Some(h))).value;
             && |hdr.txs| > 0
             && TxModels(hdr.txs, hdr.height).Some?
             && var written := t.Append(TransactionColl, TxModels(hdr.txs, hdr.height).value);
                || r.tables == written
                || r.tables == written.Append(ReceiptColl, WithHeight(receipts, hdr.height)))
  {
    var tag := ToBlockNumArg(Some(h));
    match FetchBlock(node, h)
    case None =>
    case Some(block) =>
      match DecodeHeader(block)
      case Err(_) =>
      case Ok(hdr) =>
        match node.getBlockReceipts(tag)
        case None =>
        case Some(receipts) =>
          if |hdr.txs| == |receipts| && |hdr.txs| > 0 && TxModels(hdr.txs, hdr.height).Some? {
            var txDocs := TxModels(hdr.txs, hdr.height).value;
            var afterTxs := WriteMany(Run(t, Completed), f, TransactionColl, txDocs);
            var afterReceipts := WriteMany(afterTxs, f, ReceiptColl, WithHeight(receipts, hdr.height));
            assert Ingest(t, f, node, h) == WriteMany(afterReceipts, f, BlockColl, [BlockDoc(block, hdr)]);
          }
  }

  /** A block whose receipt count differs from its transaction count aborts the run
      before anything of that height is written. */
  lemma ReceiptMismatchWritesNothing(t: Tables, f: Faults, node: EthNode, h: nat)
    requires FetchBlock(node, h).Some? && DecodeHeader(FetchBlock(node, h).value).Ok?
    requires node.getBlockReceipts(ToBlockNumArg(Some(h))).Some?
    requires |DecodeHeader(FetchBlock(node, h).value).value.txs| != |node.getBlockReceipts(ToBlockNumArg(Some(h))).value|
    ensures Ingest(t, f, node, h) == Run(t, Aborted(ReceiptMismatch))
  {
  }

  /** The node answers the tag of height `h` with the block of that number. */
  predicate Numbered(node: EthNode, h: nat)
  {
    match FetchBlock(node, h)
    case None => true
    case Some(b) => DecodeHeader(b).Ok? ==> DecodeHeader(b).value.height == h
  }

  /** The stamping facts about a run that appended `txDocs`, `receipts` and the block
      document of `hdr` to `t`. */
  lemma StampedWrites(t: Tables, r: Run, block: Document, hdr: Header, txDocs: seq<Document>, receipts: seq<Document>)
    requires forall i :: 0 <= i < |txDocs| ==> Get(txDocs[i], "height") == Uint64(hdr.height)
    requires forall i :: 0 <= i < |receipts| ==> Get(receipts[i], "height") == Uint64(hdr.height)
    requires |txDocs| == |receipts|
    requires r.tables.transactions == t.transactions + txDocs
    requires r.tables.receipts == t.receipts + receipts
    requires r.tables.blocks == t.blocks + [BlockDoc(block, hdr)]
    ensures |r.tables.blocks| == |t.blocks| + 1
    ensures var d := r.tables.blocks[|t.blocks|];
      && Get(d, "height") == Uint64(hdr.height)
      && "transactions" !in d
      && (forall i :: |t.transactions| <= i < |r.tables.transactions| ==> Get(r.tables.transactions[i], "height") == Get(d, "height"))
      && (forall i :: |t.receipts| <= i < |r.tables.receipts| ==> Get(r.tables.receipts[i], "height") == Get(d, "height"))
      && |r.tables.transactions| - |t.transactions| == |r.tables.receipts| - |t.receipts|
  {
    var d := r.tables.blocks[|t.blocks|];
    assert d == BlockDoc(block, hdr);
    forall i | |t.transactions| <= i < |r.tables.transactions|
      ensures Get(r.tables.transactions[i], "height") == Uint64(hdr.height)
    {
      assert r.tables.transactions[i] == txDocs[i - |t.transactions|];
    }
    forall i | |t.receipts| <= i < |r.tables.receipts|
      ensures Get(r.tables.receipts[i], "height") == Uint64(hdr.height)
    {
      assert r.tables.receipts[i] == receipts[i - |t.receipts|];
    }
  }

  /** The block written for height `h` carries `height` h, the decoded `time`, and no
      `transactions`; every transaction and receipt written with it carries `height` h. */
  lemma IngestStampsHeight(t: Tables, f: Faults, node: EthNode, h: nat)
    requires Numbered(node, h)
    requires Ingest(t, f, node, h).outcome.Completed?
    ensures var r := Ingest(t, f, node, h);
      && |r.tables.blocks| == |t.blocks| + 1
      && var d := r.tables.blocks[|t.blocks|];
         && Get(d, "height").Uint64? && Get(d, "height").u64 == h
         && "transactions" !in d
         && (forall i :: |t.transactions| <= i < |r.tables.transactions| ==> Get(r.tables.transactions[i], "height") == Get(d, "height"))
         && (forall i :: |t.receipts| <= i < |r.tables.receipts| ==> Get(r.tables.receipts[i], "height") == Get(d, "height"))
         && |r.tables.transactions| - |t.transactions| == |r.tables.receipts| - |t.receipts|
  {
    IngestWrites(t, f, node, h);
    var block := FetchBlock(node, h).value;
    var hdr := DecodeHeader(block).value;
    var txDocs := TxModels(hdr.txs, hdr.height).value;
    var receipts := WithHeight(node.getBlockReceipts(ToBlockNumArg(Some(h))).value, hdr.height);
    StampedWrites(t, Ingest(t, f, node, h), block, hdr, txDocs, receipts);
  }


  // ---------------------------------------------------------------------------
  // The height loop

  /** `d` is a block document of height `h`. */
  predicate HeightIs(d: Document, h: nat)
  {
    Get(d, "height").Uint64? && Get(d, "height").u64 == h
  }

  /** `after` is `before` followed by blocks of consecutive heights from `lo`. */
  ghost predicate AppendedFrom(before: seq<Document>, after: seq<Document>, lo: nat)
  {
    && |after| >= |before|
    && after[..|before|] == before
    && forall i :: |before| <= i < |after| ==> HeightIs(after[i], lo + i - |before|)
  }

  lemma AppendedChain(a: seq<Document>, b: seq<Document>, c: seq<Document>, lo: nat)
    requires |b| == |a| + 1 && AppendedFrom(a, b, lo) && AppendedFrom(b, c, lo + 1)
    ensures AppendedFrom(a, c, lo)
  {
    assert c[..|a|] == c[..|b|][..|a|];
    forall i | |a| <= i < |c|
      ensures HeightIs(c[i], lo + i - |a|)
    {
      if i == |a| {
        assert c[i] == c[..|b|][i];
      }
    }
  }

  /** The effect of one height on the block collection, when the node numbers its
      blocks truthfully: one block of that height appended, or nothing. */
  lemma IngestBlock(t: Tables, f: Faults, node: EthNode, h: nat)
    requires Numbered(node, h)
    ensures var r := Ingest(t, f, node, h);
      if r.outcome.Completed? then |r.tables.blocks| == |t.blocks| + 1 && AppendedFrom(t.blocks, r.tables.blocks, h)
      else r.tables.blocks == t.blocks
  {
    var r := Ingest(t, f, node, h);
    if r.outcome.Completed? {
      IngestStampsHeight(t, f, node, h);
      IngestWrites(t, f, node, h);
      assert r.tables.blocks[..|t.blocks|] == t.blocks;
    }
  }

  /** The blocks that a run of the loop over `lo .. hi - 1` appends, when the node
      numbers its blocks truthfully: consecutive heights from `lo`, all of them when
      the run completes, and the blocks already stored are kept. */
  lemma {:induction false} IngestRangeAscending(t: Tables, f: Faults, node: EthNode, lo: nat, hi: nat)
    requires forall h :: lo <= h < hi ==> Numbered(node, h)
    ensures AppendedFrom(t.blocks, IngestRange(t, f, node, lo, hi).tables.blocks, lo)
    ensures lo < hi ==> |IngestRange(t, f, node, lo, hi).tables.blocks| - |t.blocks| <= hi - lo
    ensures hi <= lo ==> IngestRange(t, f, node, lo, hi).tables.blocks == t.blocks
    ensures IngestRange(t, f, node, lo, hi).outcome.Completed? && lo < hi ==>
      |IngestRange(t, f, node, lo, hi).tables.blocks| - |t.blocks| == hi - lo
    decreases hi - lo
  {
    if lo < hi {
      IngestRangeStep(t, f, node, lo, hi);
      var r1 := Ingest(t, f, node, lo);
      IngestBlock(t, f, node, lo);
      if r1.outcome.Completed? {
        IngestRangeAscending(r1.tables, f, node, lo + 1, hi);
        AppendedChain(t.blocks, r1.tables.blocks, IngestRange(r1.tables, f, node, lo + 1, hi).tables.blocks, lo);
      } else {
        assert t.blocks[..|t.blocks|] == t.blocks;
      }
    } else {
      assert t.blocks[..|t.blocks|] == t.blocks;
    }
  }

  /** Preload runs the height loop from the checkpoint, or aborts without writing. */
  lemma PreloadShape(t: Tables, f: Faults, node: EthNode, end: uint64)
    ensures LocalLatest(t, f).Err? ==> PreloadRun(t, f, node, end) == Run(t, Aborted(LocalLatest(t, f).why))
    ensures LocalLatest(t, f).Ok? ==>
      var r := PreloadRun(t, f, node, end);
      r == IngestRange(t, f, node, StartHeight(LocalLatest(t, f).value), end + 1) || (r.tables == t && r.outcome.Aborted?)
  {
  }

  /** Preload appends the heights `localLatest + 1 .. end` in ascending order, all of
      them when it completes, whatever the remote tip is; txInfos and states are not
      touched. */
  lemma PreloadHeights(t: Tables, f: Faults, node: EthNode, end: uint64)
    requires forall h :: Numbered(node, h)
    ensures PreloadRun(t, f, node, end).tables.txInfos == t.txInfos
    ensures PreloadRun(t, f, node, end).tables.states == t.states
    ensures LocalLatest(t, f).Err? ==> PreloadRun(t, f, node, end).tables == t
    ensures LocalLatest(t, f).Ok? ==>
      AppendedFrom(t.blocks, PreloadRun(t, f, node, end).tables.blocks, StartHeight(LocalLatest(t, f).value))
    ensures LocalLatest(t, f).Ok? && PreloadRun(t, f, node, end).outcome.Completed? ==>
      |PreloadRun(t, f, node, end).tables.blocks| - |t.blocks| ==
        if end < StartHeight(LocalLatest(t, f).value) then 0 else end + 1 - StartHeight(LocalLatest(t, f).value)
  {
    PreloadShape(t, f, node, end);
    if LocalLatest(t, f).Ok? {
      var start := StartHeight(LocalLatest(t, f).value);
      IngestRangeAscending(t, f, node, start, end + 1);
      assert t.blocks[..|t.blocks|] == t.blocks;
    }
  }

  /** A stored height that the checkpoint decodes to a non-negative number is an
      integer height of that value. */
  lemma NonNegativeHeight(v: Value)
    requires DecodeHeight(v).Ok? && DecodeHeight(v).value >= 0
    ensures IntegerHeight(v) && NumericValue(v) == DecodeHeight(v).value as real
  {
  }

  /** Blocks appended with consecutive heights from `start`, all below 2^63, to
      blocks of integer heights leave every height an integer height. */
  lemma AppendedIntegerHeights(before: seq<Document>, after: seq<Document>, start: nat)
    requires forall i :: 0 <= i < |before| ==> IntegerHeight(Get(before[i], "height"))
    requires AppendedFrom(before, after, start)
    requires |after| > |before| ==> start + |after| - |before| <= 0x8000_0000_0000_0000
    ensures forall i :: 0 <= i < |after| ==> IntegerHeight(Get(after[i], "height"))
  {
    forall i | 0 <= i < |after|
      ensures IntegerHeight(Get(after[i], "height"))
    {
      if i < |before| {
        assert after[i] == after[..|before|][i];
      } else {
        assert HeightIs(after[i], start + i - |before|);
      }
    }
  }

  /** Appending blocks of consecutive heights from `start`, all below 2^63, to a
      store of integer heights never lowers its checkpoint. */
  lemma AppendedKeepsLatest(t: Tables, after: Tables, f: Faults, start: nat)
    requires !Fails(f, t, Count(BlockColl)) && !Fails(f, t, Find(BlockColl))
    requires !Fails(f, after, Count(BlockColl)) && !Fails(f, after, Find(BlockColl))
    requires forall i :: 0 <= i < |t.blocks| ==> IntegerHeight(Get(t.blocks[i], "height"))
    requires AppendedFrom(t.blocks, after.blocks, start)
    requires |after.blocks| > |t.blocks| ==> start + |after.blocks| - |t.blocks| <= 0x8000_0000_0000_0000
    ensures LocalLatest(t, f).Ok? && LocalLatest(after, f).Ok?
    ensures LocalLatest(after, f).value >= LocalLatest(t, f).value
  {
    if |after.blocks| == 0 {
      assert |t.blocks| == 0;
    } else {
      AppendedIntegerHeights(t.blocks, after.blocks, start);
      LocalLatestIsMaximum(after, f);
      var m := LocalLatest(after, f).value;
      if |t.blocks| > 0 {
        LocalLatestIsMaximum(t, f);
        var l := LocalLatest(t, f).value;
        var j :| 0 <= j < |t.blocks| && NumericValue(Get(t.blocks[j], "height")) == l as real;
        assert after.blocks[j] == after.blocks[..|t.blocks|][j];
        assert NumericValue(Get(after.blocks[j], "height")) <= m as real;
      } else {
        assert HeightIs(after.blocks[0], start);
        assert NumericValue(Get(after.blocks[0], "height")) <= m as real;
      }
    }
  }

  /** Whatever aborts, Preload appends blocks of consecutive heights from the
      checkpoint's successor, none of them above `end`. */
  lemma PreloadAppendsUpTo(t: Tables, f: Faults, node: EthNode, end: uint64)
    requires forall h :: Numbered(node, h)
    requires LocalLatest(t, f).Ok?
    ensures var start := StartHeight(LocalLatest(t, f).value);
      var after := PreloadRun(t, f, node, end).tables;
      && AppendedFrom(t.blocks, after.blocks, start)
      && (|after.blocks| > |t.blocks| ==> start + |after.blocks| - |t.blocks| <= end + 1)
  {
    var start := StartHeight(LocalLatest(t, f).value);
    var blocks := PreloadRun(t, f, node, end).tables.blocks;
    var ranged := IngestRange(t, f, node, start, end + 1).tables.blocks;
    PreloadShape(t, f, node, end);
    IngestRangeAscending(t, f, node, start, end + 1);
    assert blocks == ranged || blocks == t.blocks;
    assert t.blocks[..|t.blocks|] == t.blocks;
  }

  /** Preload never moves the checkpoint back, whatever aborts: the blocks already
      stored are kept, and the ones it appends are numbered from the checkpoint's
      successor up to `end` (below 2^63, so every stored height still decodes to
      its own value). */
  lemma CheckpointNeverDecreases(t: Tables, f: Faults, node: EthNode, end: uint64)
    requires forall n :: !f(Count(BlockColl), n) && !f(Find(BlockColl), n)
    requires forall i :: 0 <= i < |t.blocks| ==> IntegerHeight(Get(t.blocks[i], "height"))
    requires forall h :: Numbered(node, h)
    requires end < 0x8000_0000_0000_0000
    ensures LocalLatest(t, f).Ok?
    ensures LocalLatest(PreloadRun(t, f, node, end).tables, f).Ok?
    ensures LocalLatest(PreloadRun(t, f, node, end).tables, f).value >= LocalLatest(t, f).value
  {
    var after := PreloadRun(t, f, node, end).tables;
    assert !Fails(f, t, Count(BlockColl)) && !Fails(f, t, Find(BlockColl));
    assert !Fails(f, after, Count(BlockColl)) && !Fails(f, after, Find(BlockColl));
    assert LocalLatest(t, f).Ok? by {
      if |t.blocks| > 0 {
        LocalLatestIsMaximum(t, f);
      }
    }
    PreloadAppendsUpTo(t, f, node, end);
    AppendedKeepsLatest(t, after, f, StartHeight(LocalLatest(t, f).value));
  }

  /** The block collection holds the heights `0 .. |blocks| - 1`, each once, in
      order of insertion. */
  predicate GapFree(blocks: seq<Document>)
  {
    forall i :: 0 <= i < |blocks| ==> HeightIs(blocks[i], i)
  }

  /** The checkpoint of a gap-free store (of at most 2^63 blocks) is its last height. */
  lemma GapFreeLatest(t: Tables, f: Faults)
    requires GapFree(t.blocks) && |t.blocks| <= 0x8000_0000_0000_0000
    requires LocalLatest(t, f).Ok?
    ensures LocalLatest(t, f).value == |t.blocks| - 1
  {
    if |t.blocks| > 0 {
      assert !Fails(f, t, Count(BlockColl)) && !Fails(f, t, Find(BlockColl));
      forall i | 0 <= i < |t.blocks|
        ensures IntegerHeight(Get(t.blocks[i], "height"))
      {
        assert HeightIs(t.blocks[i], i);
      }
      LocalLatestIsMaximum(t, f);
      var m := LocalLatest(t, f).value;
      var i :| 0 <= i < |t.blocks| && NumericValue(Get(t.blocks[i], "height")) == m as real;
      assert HeightIs(t.blocks[i], i);
      assert HeightIs(t.blocks[|t.blocks| - 1], |t.blocks| - 1);
      assert NumericValue(Get(t.blocks[|t.blocks| - 1], "height")) <= m as real;
    }
  }

  /** Appending the heights from `|before|` on to a gap-free collection keeps it gap-free. */
  lemma AppendedGapFree(before: seq<Document>, after: seq<Document>)
    requires GapFree(before) && AppendedFrom(before, after, |before|)
    ensures GapFree(after)
  {
    forall i | 0 <= i < |after|
      ensures HeightIs(after[i], i)
    {
      if i < |before| {
        assert after[i] == after[..|before|][i];
      }
    }
  }

  /** Preload keeps a gap-free store gap-free, whatever aborts: it resumes at the
      height after the last one stored. */
  lemma PreloadKeepsGapFree(t: Tables, f: Faults, node: EthNode, end: uint64)
    requires GapFree(t.blocks) && |t.blocks| <= 0x8000_0000_0000_0000
    requires forall h :: Numbered(node, h)
    ensures GapFree(PreloadRun(t, f, node, end).tables.blocks)
  {
    if LocalLatest(t, f).Ok? {
      GapFreeLatest(t, f);
      ResumeAfterLast(t, f, node, end);
    } else {
      PreloadShape(t, f, node, end);
    }
  }

  /** Once the checkpoint is the last height of a gap-free store, Preload appends from
      the next index on. */
  lemma ResumeAfterLast(t: Tables, f: Faults, node: EthNode, end: uint64)
    requires GapFree(t.blocks) && LocalLatest(t, f).Ok? && LocalLatest(t, f).value == |t.blocks| - 1
    requires forall h :: Numbered(node, h)
    ensures GapFree(PreloadRun(t, f, node, end).tables.blocks)
  {
    assert StartHeight(LocalLatest(t, f).value) == |t.blocks|;
    PreloadAppendsUpTo(t, f, node, end);
    AppendedGapFree(t.blocks, PreloadRun(t, f, node, end).tables.blocks);
  }

  /** If the store is already at or beyond `end`, Preload writes nothing. */
  lemma PreloadCaughtUp(t: Tables, f: Faults, node: EthNode, end: uint64)
    requires LocalLatest(t, f).Ok? && LocalLatest(t, f).value >= end
    ensures PreloadRun(t, f, node, end).tables == t
  {
    assert StartHeight(LocalLatest(t, f).value) == LocalLatest(t, f).value + 1;
  }

  // ---------------------------------------------------------------------------
  // Account upserts

  /** Upserting an account keeps addresses unique, leaves a document for the address
      that carries the upserted fields, keeps every address already present, and adds
      a document only for a new address. */
  lemma UpsertEffect(docs: seq<Document>, addr: string, fields: Document)
    requires Get(fields, "address") == Str(addr)
    ensures var r := Upsert(docs, addr, fields);
      && (UniqueAddresses(docs) ==> UniqueAddresses(r))
      && (exists j :: 0 <= j < |r| && Get(r[j], "address") == Str(addr) && Carries(r[j], fields))
      && (forall a :: HasAddress(docs, a) ==> HasAddress(r, a))
      && |r| == if HasAddress(docs, addr) then |docs| else |docs| + 1
  {
    var r := Upsert(docs, addr, fields);
    match FirstWithAddress(docs, addr)
    case None =>
      assert r[|docs|] == map["address" := Str(addr)] + fields;
      forall a | HasAddress(docs, a) ensures HasAddress(r, a) {
        var j :| 0 <= j < |docs| && Get(docs[j], "address") == Str(a);
        assert r[j] == docs[j];
      }
    case Some(i) =>
      assert forall j :: 0 <= j < |r| ==> Get(r[j], "address") == Get(docs[j], "address");
      assert Carries(r[i], fields);
      forall a | HasAddress(docs, a) ensures HasAddress(r, a) {
        var j :| 0 <= j < |docs| && Get(docs[j], "address") == Str(a);
        assert Get(r[j], "address") == Str(a);
      }
  }

  lemma {:induction false} FirstWithAddressAt(docs: seq<Document>, addr: string, i: nat)
    requires i < |docs| && Get(docs[i], "address") == Str(addr)
    requires forall j :: 0 <= j < i ==> Get(docs[j], "address") != Str(addr)
    ensures FirstWithAddress(docs, addr) == Some(i)
    decreases i
  {
    if i > 0 {
      FirstWithAddressAt(docs[1..], addr, i - 1);
    }
  }

  /** Upserting the same address twice, the second time with at least the fields of
      the first, is the same as upserting it once with the second call's fields. */
  lemma UpsertTwice(docs: seq<Document>, addr: string, first: Document, second: Document)
    requires Get(first, "address") == Str(addr)
    requires first.Keys <= second.Keys
    ensures Upsert(Upsert(docs, addr, first), addr, second) == Upsert(docs, addr, second)
  {
    var once := Upsert(docs, addr, first);
    match FirstWithAddress(docs, addr)
    case None =>
      var d := map["address" := Str(addr)] + first;
      assert once == docs + [d];
      assert Get(once[|docs|], "address") == Str(addr);
      FirstWithAddressAt(once, addr, |docs|);
      assert d + second == map["address" := Str(addr)] + second;
      assert Upsert(once, addr, second) == once[|docs| := d + second];
      assert once[|docs| := d + second] == docs + [d + second];
    case Some(i) =>
      assert once == docs[i := docs[i] + first];
      FirstWithAddressAt(once, addr, i);
      assert docs[i] + first + second == docs[i] + second;
  }

  /** Two account upserts of the same address that both complete leave the store as a
      single upsert of the second call's account would. */
  lemma UpsertAccountTwice(t: Tables, f: Faults, first: EthNode, second: EthNode, addr: string)
    requires UpsertAccount(t, f, first, addr).outcome.Completed?
    requires UpsertAccount(UpsertAccount(t, f, first, addr).tables, f, second, addr).outcome.Completed?
    ensures FetchAccount(second, addr).Ok?
    ensures UpsertAccount(UpsertAccount(t, f, first, addr).tables, f, second, addr).tables
            == t.(states := Upsert(t.states, addr, FetchAccount(second, addr).value))
  {
    UpsertTwice(t.states, addr, FetchAccount(first, addr).value, FetchAccount(second, addr).value);
  }

  // ---------------------------------------------------------------------------
  // MaintainState

  /** A cursor loop keeps addresses unique and keeps every address present, whether
      it completes or aborts. */
  lemma {:induction false} UpsertKeysKeepsAddresses(t: Tables, f: Faults, node: EthNode, keys: seq<Value>)
    ensures var r := UpsertKeys(t, f, node, keys);
      && (UniqueAddresses(t.states) ==> UniqueAddresses(r.tables.states))
      && (forall a :: HasAddress(t.states, a) ==> HasAddress(r.tables.states, a))
      && r.tables.receipts == t.receipts && r.tables.txInfos == t.txInfos
    decreases |keys|
  {
    if |keys| > 0 && keys[0].Str? {
      var r1 := UpsertAccount(t, f, node, keys[0].s);
      if r1.outcome.Completed? {
        UpsertEffect(t.states, keys[0].s, FetchAccount(node, keys[0].s).value);
        UpsertKeysKeepsAddresses(r1.tables, f, node, keys[1..]);
      }
    }
  }

  /** A cursor loop that completes met only string keys and left a state document
      for each of them. */
  lemma {:induction false} UpsertKeysCovers(t: Tables, f: Faults, node: EthNode, keys: seq<Value>)
    requires UpsertKeys(t, f, node, keys).outcome.Completed?
    ensures forall i :: 0 <= i < |keys| ==> keys[i].Str? && HasAddress(UpsertKeys(t, f, node, keys).tables.states, keys[i].s)
    decreases |keys|
  {
    if |keys| > 0 {
      var r1 := UpsertAccount(t, f, node, keys[0].s);
      var r := UpsertKeys(t, f, node, keys);
      UpsertEffect(t.states, keys[0].s, FetchAccount(node, keys[0].s).value);
      UpsertKeysKeepsAddresses(r1.tables, f, node, keys[1..]);
      UpsertKeysCovers(r1.tables, f, node, keys[1..]);
      forall i | 0 <= i < |keys|
        ensures keys[i].Str? && HasAddress(r.tables.states, keys[i].s)
      {
        if i > 0 {
          assert keys[i] == keys[1..][i - 1];
        }
      }
    }
  }

  /** One pass keeps addresses unique and present, and touches only the states. */
  lemma ScanPassKeepsAddresses(r: Run, f: Faults, node: EthNode, c: Coll, field: string)
    ensures var r' := ScanPass(r, f, node, c, field);
      && (UniqueAddresses(r.tables.states) ==> UniqueAddresses(r'.tables.states))
      && (forall a :: HasAddress(r.tables.states, a) ==> HasAddress(r'.tables.states, a))
      && r'.tables == r.tables.(states := r'.tables.states)
  {
    if r.outcome.Completed? && GroupKeys(r.tables, f, c, field).Ok? {
      UpsertKeysKeepsAddresses(r.tables, f, node, GroupKeys(r.tables, f, c, field).value);
    }
  }

  /** Every document of `docs` has a string `field` for which `states` holds a document. */
  ghost predicate Covered(docs: seq<Document>, field: string, states: seq<Document>)
  {
    forall i :: 0 <= i < |docs| ==> Get(docs[i], field).Str? && HasAddress(states, Get(docs[i], field).s)
  }

  lemma CoveredKept(docs: seq<Document>, field: string, states: seq<Document>, states': seq<Document>)
    requires Covered(docs, field, states)
    requires forall a :: HasAddress(states, a) ==> HasAddress(states', a)
    ensures Covered(docs, field, states')
  {
  }

  /** A pass that completes left a state document for the value of `field` of every
      document of collection `c`, and every such value was a string. */
  lemma ScanPassCovers(r: Run, f: Faults, node: EthNode, c: Coll, field: string)
    requires ScanPass(r, f, node, c, field).outcome.Completed?
    ensures Covered(r.tables.Get(c), field, ScanPass(r, f, node, c, field).tables.states)
  {
    var keys := GroupKeys(r.tables, f, c, field).value;
    UpsertKeysCovers(r.tables, f, node, keys);
    forall i | 0 <= i < |r.tables.Get(c)|
      ensures Get(r.tables.Get(c)[i], field).Str? && HasAddress(ScanPass(r, f, node, c, field).tables.states, Get(r.tables.Get(c)[i], field).s)
    {
      var v := Get(r.tables.Get(c)[i], field);
      assert v in keys;
      var j :| 0 <= j < |keys| && keys[j] == v;
    }
  }

  /** MaintainState changes only the states, keeps their addresses unique and keeps
      every address, whether it completes or aborts (an abort in a later pass keeps
      the upserts of the earlier ones). */
  lemma MaintainStateKeepsAddresses(t: Tables, f: Faults, node: EthNode)
    ensures var r := MaintainStateRun(t, f, node);
      && (UniqueAddresses(t.states) ==> UniqueAddresses(r.tables.states))
      && (forall a :: HasAddress(t.states, a) ==> HasAddress(r.tables.states, a))
      && r.tables == t.(states := r.tables.states)
  {
    var miners := ScanPass(Run(t, Completed), f, node, BlockColl, "miner");
    var senders := ScanPass(miners, f, node, TransactionColl, "from");
    ScanPassKeepsAddresses(Run(t, Completed), f, node, BlockColl, "miner");
    ScanPassKeepsAddresses(miners, f, node, TransactionColl, "from");
    ScanPassKeepsAddresses(senders, f, node, TransactionColl, "to");
  }

  /** A MaintainState that completes left a state document for every block miner,
      every transaction sender and every transaction recipient. */
  lemma MaintainStateCovers(t: Tables, f: Faults, node: EthNode)
    requires MaintainStateRun(t, f, node).outcome.Completed?
    ensures Covered(t.blocks, "miner", MaintainStateRun(t, f, node).tables.states)
    ensures Covered(t.transactions, "from", MaintainStateRun(t, f, node).tables.states)
    ensures Covered(t.transactions, "to", MaintainStateRun(t, f, node).tables.states)
  {
    var start := Run(t, Completed);
    var miners := ScanPass(start, f, node, BlockColl, "miner");
    var senders := ScanPass(miners, f, node, TransactionColl, "from");
    var recipients := ScanPass(senders, f, node, TransactionColl, "to");
    ScanPassKeepsAddresses(start, f, node, BlockColl, "miner");
    ScanPassKeepsAddresses(miners, f, node, TransactionColl, "from");
    ScanPassKeepsAddresses(senders, f, node, TransactionColl, "to");
    assert miners.outcome.Completed? && senders.outcome.Completed?;
    ScanPassCovers(start, f, node, BlockColl, "miner");
    ScanPassCovers(miners, f, node, TransactionColl, "from");
    ScanPassCovers(senders, f, node, TransactionColl, "to");
    CoveredKept(t.blocks, "miner", miners.tables.states, senders.tables.states);
    CoveredKept(t.blocks, "miner", senders.tables.states, recipients.tables.states);
    CoveredKept(t.transactions, "from", senders.tables.states, recipients.tables.states);
  }

  /** A transaction without a recipient (a contract creation: its `to` is null) makes
      MaintainState abort. */
  lemma NullRecipientAborts(t: Tables, f: Faults, node: EthNode, i: nat)
    requires i < |t.transactions| && Get(t.transactions[i], "to") == Null
    ensures MaintainStateRun(t, f, node).outcome.Aborted?
  {
    if MaintainStateRun(t, f, node).outcome.Completed? {
      MaintainStateCovers(t, f, node);
      assert false;
    }
  }
}
