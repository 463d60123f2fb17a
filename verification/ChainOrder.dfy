/**
 The order a run of adds and pops leaves in the store: blocks form one chain by their previous hashes, transactions are
 numbered from the first block on, and output ids have no gaps.
 */
module ChainOrder {
  import opened ChainData
  import opened ChainLedger
  import opened ChainRuns
  import opened ChainStore
  import opened Options
  import opened OutputTable

  // Blocks

  /** Heights and hashes correspond, and each block names the one below it. */
  ghost predicate Linked(l: Ledger) {
    && (forall i | 0 <= i < |l.blocks| :: l.blocks[i].block.hash in l.heights && l.heights[l.blocks[i].block.hash] == i)
    && (forall h | h in l.heights :: l.heights[h] < |l.blocks| && l.blocks[l.heights[h]].block.hash == h)
    && (forall i | 0 < i < |l.blocks| :: l.blocks[i].block.prevId == l.blocks[i - 1].block.hash)
  }

  /** A block is accepted exactly if its hash is new and it goes on top; the first one must not accumulate. */
  lemma AddBlockEntryIff(l: Ledger, blk: Block, numRctOuts: nat)
    requires Linked(l)
    ensures var n := |l.blocks|;
            AddBlockEntry(l, blk, numRctOuts).Success? <==>
              && (forall i | 0 <= i < n :: l.blocks[i].block.hash != blk.hash)
              && (if n == 0 then blk.majorVersion < 4 else blk.prevId == l.blocks[n - 1].block.hash)
  {
    var n := |l.blocks|;
    if n > 0 {
      assert l.blocks[n - 1].block.hash in l.heights;
    }
    if blk.hash in l.heights {
      assert l.blocks[l.heights[blk.hash]].block.hash == blk.hash;
    }
    if blk.prevId in l.heights {
      assert l.blocks[l.heights[blk.prevId]].block.hash == blk.prevId;
    }
  }

  lemma BlockKeepsLinked(l: Ledger, blk: Block, numRctOuts: nat)
    requires Linked(l) && AddBlockEntry(l, blk, numRctOuts).Success?
    ensures Linked(AddBlockEntry(l, blk, numRctOuts).value)
  {
    AddBlockEntryIff(l, blk, numRctOuts);
  }

  lemma {:induction false} ChainLinked(chain: seq<Link>, l: Ledger)
    requires LedgerOf(chain) == Some(l)
    ensures Linked(l)
  {
    hide WithTx, WithTxs, FreshTx, FreshTxs, NumRctOuts, AddBlockEntry;
    if |chain| > 0 {
      var n := |chain| - 1;
      var Link(blk, txs) := chain[n];
      var before := LedgerOf(chain[..n]).value;
      var first := WithTx(before, blk.minerTx, blk.minerTx.hash);
      ChainLinked(chain[..n], before);
      WithTxCounts(before, blk.minerTx, blk.minerTx.hash);
      WithTxsCounts(first, txs, blk.txHashes, |txs|);
      BlockKeepsLinked(WithTxs(first, txs, blk.txHashes, |txs|), blk, NumRctOuts(blk, txs));
    }
  }

  /** After every run the blocks form one chain, and heights lead to them. */
  lemma RunLinked(ops: seq<Op>)
    requires forall k | 0 <= k < |ops| :: Callable(ops[k])
    ensures Linked(Run(ops).store.ledger)
  {
    hide Run, LedgerOf, Linked;
    RunLedger(ops);
    ChainLinked(Run(ops).chain, Run(ops).store.ledger);
  }

  // Transactions

  lemma WithTxNumber(l: Ledger, tx: Tx, hash: Hash)
    ensures var m := WithTx(l, tx, hash); hash in m.txs && m.txs[hash] == TxEntry(|l.txs|, tx, |l.blocks|)
  {}

  lemma WithTxKeeps(l: Ledger, tx: Tx, hash: Hash, h: Hash)
    requires FreshTx(l, tx, hash) && h in l.txs
    ensures h in WithTx(l, tx, hash).txs && WithTx(l, tx, hash).txs[h] == l.txs[h]
  {
    hide KeySet, FreshKeys;
  }

  lemma {:induction false} WithTxsKeep(l: Ledger, txs: seq<Tx>, hashes: seq<Hash>, n: nat, h: Hash)
    requires n <= |txs| == |hashes| && FreshTxs(l, txs, hashes, n) && h in l.txs
    ensures h in WithTxs(l, txs, hashes, n).txs && WithTxs(l, txs, hashes, n).txs[h] == l.txs[h]
  {
    hide WithTx, FreshTx;
    if n > 0 {
      WithTxsKeep(l, txs, hashes, n - 1, h);
      WithTxKeeps(WithTxs(l, txs, hashes, n - 1), txs[n - 1], hashes[n - 1], h);
    }
  }

  lemma {:induction false} WithTxsNumber(l: Ledger, txs: seq<Tx>, hashes: seq<Hash>, n: nat, j: nat)
    requires j < n <= |txs| == |hashes| && FreshTxs(l, txs, hashes, n)
    ensures var m := WithTxs(l, txs, hashes, n);
            hashes[j] in m.txs && m.txs[hashes[j]] == TxEntry(|l.txs| + j, txs[j], |l.blocks|)
  {
    hide WithTx, FreshTx, TxsKeys, TxsKeyCount;
    var before := WithTxs(l, txs, hashes, n - 1);
    if j == n - 1 {
      WithTxsCounts(l, txs, hashes, n - 1);
      WithTxNumber(before, txs[j], hashes[j]);
    } else {
      WithTxsNumber(l, txs, hashes, n - 1, j);
      WithTxKeeps(before, txs[n - 1], hashes[n - 1], hashes[j]);
    }
  }

  /** The transactions of a block are stored with its height and with numbers from `first` on, the miner's first. */
  ghost predicate Numbered(l: Ledger, link: Link, first: nat, height: nat) {
    var Link(blk, txs) := link;
    && |blk.txHashes| == |txs|
    && blk.minerTx.hash in l.txs && l.txs[blk.minerTx.hash] == TxEntry(first, blk.minerTx, height)
    && forall j | 0 <= j < |txs| ::
         blk.txHashes[j] in l.txs && l.txs[blk.txHashes[j]] == TxEntry(first + 1 + j, txs[j], height)
  }

  lemma ExtendedNumbers(l: Ledger, link: Link)
    requires Extended(l, link).Some?
    ensures Numbered(Extended(l, link).value, link, |l.txs|, |l.blocks|)
  {
    hide WithTxs, FreshTxs, KeySet, FreshKeys, NumRctOuts;
    var Link(blk, txs) := link;
    var first, after := WithTx(l, blk.minerTx, blk.minerTx.hash), Extended(l, link).value;
    WithTxsKeep(first, txs, blk.txHashes, |txs|, blk.minerTx.hash);
    forall j | 0 <= j < |txs|
      ensures blk.txHashes[j] in after.txs
      ensures after.txs[blk.txHashes[j]] == TxEntry(|l.txs| + 1 + j, txs[j], |l.blocks|)
    {
      WithTxsNumber(first, txs, blk.txHashes, |txs|, j);
    }
  }

  lemma ExtendedKeeps(l: Ledger, link: Link, other: Link, first: nat, height: nat)
    requires Extended(l, link).Some? && Numbered(l, other, first, height)
    ensures Numbered(Extended(l, link).value, other, first, height)
  {
    hide WithTxs, FreshTxs, KeySet, FreshKeys, NumRctOuts;
    var Link(blk, txs) := link;
    var mined, m := WithTx(l, blk.minerTx, blk.minerTx.hash), Extended(l, link).value;
    forall h | h in l.txs
      ensures h in m.txs && m.txs[h] == l.txs[h]
    {
      WithTxsKeep(mined, txs, blk.txHashes, |txs|, h);
    }
  }

  lemma {:induction false} ChainNumbered(chain: seq<Link>, l: Ledger, i: nat)
    requires LedgerOf(chain) == Some(l) && i < |chain|
    ensures Numbered(l, chain[i], ChainTxCount(chain[..i]), i)
  {
    hide Extended, Numbered, ChainTxCount, ChainKeys, ChainKeyCount;
    var n := |chain| - 1;
    var before := LedgerOf(chain[..n]).value;
    if i == n {
      SpentKeys(chain[..n], before);
      ExtendedNumbers(before, chain[n]);
    } else {
      ChainNumbered(chain[..n], before, i);
      assert chain[..n][..i] == chain[..i];
      ExtendedKeeps(before, chain[n], chain[i], ChainTxCount(chain[..i]), i);
    }
  }

  /** After every run the transactions of the chain are numbered in its order and stored with the heights in it. */
  lemma RunNumbered(ops: seq<Op>, i: nat)
    requires forall k | 0 <= k < |ops| :: Callable(ops[k])
    requires i < |Run(ops).chain|
    ensures Numbered(Run(ops).store.ledger, Run(ops).chain[i], ChainTxCount(Run(ops).chain[..i]), i)
  {
    hide Run, LedgerOf, Numbered;
    RunLedger(ops);
    ChainNumbered(Run(ops).chain, Run(ops).store.ledger, i);
  }

  // Outputs

  /** The p-th output has id p. */
  ghost predicate NoGaps(o: Outputs) {
    forall p | 0 <= p < |o.outputTxs| :: o.outputTxs[p].outputId == p
  }

  lemma {:induction false} OutputsKeepNoGaps(o: Outputs, tx: Tx, hash: Hash, height: nat, n: nat)
    requires n <= |tx.vout| && tx.HasCommitments() && AddOutputs(o, tx, hash, height, n).Success? && NoGaps(o)
    ensures NoGaps(AddOutputs(o, tx, hash, height, n).value.0)
  {
    if n > 0 {
      OutputsKeepNoGaps(o, tx, hash, height, n - 1);
    }
  }

  lemma AddKeepsNoGaps(s: Store, tx: Tx, hash: Hash)
    requires tx.HasCommitments() && AddTransaction(s, tx, hash).Success? && NoGaps(s.outputs)
    ensures NoGaps(AddTransaction(s, tx, hash).value.outputs)
  {
    hide AddTransaction, AddOutputs, NoGaps;
    AddTransactionParts(s, tx, hash);
    OutputsKeepNoGaps(s.outputs, tx, hash, |s.ledger.blocks|, |tx.vout|);
  }

  lemma {:induction false} AddTxsKeepNoGaps(s: Store, txs: seq<Tx>, hashes: seq<Hash>, n: nat)
    requires n <= |txs| == |hashes| && forall i | 0 <= i < |txs| :: txs[i].HasCommitments()
    requires AddTxs(s, txs, hashes, n).Success? && NoGaps(s.outputs)
    ensures NoGaps(AddTxs(s, txs, hashes, n).value.outputs)
  {
    hide AddTransaction, NoGaps;
    if n > 0 {
      AddTxsKeepNoGaps(s, txs, hashes, n - 1);
      AddKeepsNoGaps(AddTxs(s, txs, hashes, n - 1).value, txs[n - 1], hashes[n - 1]);
    }
  }

  lemma {:induction false} ChainHasNoGaps(chain: seq<Link>)
    requires (forall k | 0 <= k < |chain| :: chain[k].HasCommitments()) && StoreOf(chain).Success?
    ensures NoGaps(StoreOf(chain).value.outputs)
  {
    hide AddTransaction, AddTxs, AddBlockEntry, NumRctOuts;
    if |chain| > 0 {
      var n := |chain| - 1;
      var before := StoreOf(chain[..n]).value;
      var Link(blk, txs) := chain[n];
      assert chain[n].HasCommitments();
      ChainHasNoGaps(chain[..n]);
      AddKeepsNoGaps(before, blk.minerTx, blk.minerTx.hash);
      AddTxsKeepNoGaps(AddTransaction(before, blk.minerTx, blk.minerTx.hash).value, txs, blk.txHashes, |txs|);
    }
  }

  /** After every run of restorable blocks output ids are 0, 1, 2 and so on without gaps. */
  lemma RunHasNoGaps(ops: seq<Op>)
    requires forall k | 0 <= k < |ops| :: RestorableOp(ops[k]) && Callable(ops[k])
    ensures NoGaps(Run(ops).store.outputs)
  {
    hide Run, StoreOf, NoGaps;
    RunStore(ops);
    ChainHasNoGaps(Run(ops).chain);
  }
}
