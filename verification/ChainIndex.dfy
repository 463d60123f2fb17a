/** What a chain built from nothing can look up: every output by its index, and the number of amount-0 outputs. */
module ChainIndex {
  import opened ChainData
  import opened ChainLedger
  import opened ChainRuns
  import opened ChainStore
  import opened OutputTable

  // Every output is found under its stored index

  /**
   The transaction is stored under its hash with the height of its block, and with one index per output that leads to
   the output and back.
   */
  ghost predicate Located(s: Store, tx: Tx, hash: Hash, height: nat) {
    && hash in s.ledger.txs && s.ledger.txs[hash].tx == tx && s.ledger.txs[hash].height == height
    && s.ledger.txs[hash].id in s.txOutputs
    && var indices := s.txOutputs[s.ledger.txs[hash].id];
       && |indices| == |tx.vout|
       && forall k | 0 <= k < |tx.vout| :: Leads(s.outputs, tx, hash, height, k, indices[k])
  }

  lemma {:induction false} OutputsKeepLeads(o: Outputs, tx: Tx, hash: Hash, height: nat, n: nat, other: Tx, h: Hash,
                                            at: nat, k: nat, index: nat)
    requires n <= |tx.vout| && tx.HasCommitments() && AddOutputs(o, tx, hash, height, n).Success?
    requires k < |other.vout| && Leads(o, other, h, at, k, index)
    ensures Leads(AddOutputs(o, tx, hash, height, n).value.0, other, h, at, k, index)
  {
    hide AddNext, Leads;
    if n > 0 {
      OutputsKeepLeads(o, tx, hash, height, n - 1, other, h, at, k, index);
      var before := AddOutputs(o, tx, hash, height, n - 1).value.0;
      NextKeepsLeads(before, tx, hash, height, n - 1, other, h, at, k, index);
    }
  }

  lemma AddedIsLocated(s: Store, tx: Tx, hash: Hash)
    requires tx.HasCommitments() && AddTransaction(s, tx, hash).Success?
    ensures Located(AddTransaction(s, tx, hash).value, tx, hash, |s.ledger.blocks|)
  {
    hide AddTransaction, AddOutputs, Leads;
    AddTransactionParts(s, tx, hash);
    var added := AddTransaction(s, tx, hash).value;
    var indices := added.txOutputs[added.ledger.txs[hash].id];
    forall k | 0 <= k < |tx.vout|
      ensures Leads(added.outputs, tx, hash, |s.ledger.blocks|, k, indices[k])
    {
      StoredIndicesLead(s, tx, hash, k);
    }
  }

  lemma AddKeepsLocated(s: Store, tx: Tx, hash: Hash, other: Tx, h: Hash, at: nat)
    requires tx.HasCommitments() && AddTransaction(s, tx, hash).Success? && Located(s, other, h, at)
    ensures Located(AddTransaction(s, tx, hash).value, other, h, at)
  {
    hide AddTransaction, AddOutputs, Leads, KeySet, FreshKeys;
    AddTransactionParts(s, tx, hash);
    AddTransactionLedger(s, tx, hash);
    var added, indices := AddTransaction(s, tx, hash).value, s.txOutputs[s.ledger.txs[h].id];
    forall k | 0 <= k < |other.vout|
      ensures Leads(added.outputs, other, h, at, k, indices[k])
    {
      OutputsKeepLeads(s.outputs, tx, hash, |s.ledger.blocks|, |tx.vout|, other, h, at, k, indices[k]);
    }
  }

  lemma {:induction false} AddTxsKeepLocated(s: Store, txs: seq<Tx>, hashes: seq<Hash>, n: nat, other: Tx, h: Hash,
                                             at: nat)
    requires n <= |txs| == |hashes| && forall i | 0 <= i < |txs| :: txs[i].HasCommitments()
    requires AddTxs(s, txs, hashes, n).Success? && Located(s, other, h, at)
    ensures Located(AddTxs(s, txs, hashes, n).value, other, h, at)
  {
    hide AddTransaction, Located;
    if n > 0 {
      AddTxsKeepLocated(s, txs, hashes, n - 1, other, h, at);
      AddKeepsLocated(AddTxs(s, txs, hashes, n - 1).value, txs[n - 1], hashes[n - 1], other, h, at);
    }
  }

  lemma {:induction false} AddTxsKeepHeight(s: Store, txs: seq<Tx>, hashes: seq<Hash>, n: nat)
    requires n <= |txs| == |hashes| && forall i | 0 <= i < |txs| :: txs[i].HasCommitments()
    requires AddTxs(s, txs, hashes, n).Success?
    ensures AddTxs(s, txs, hashes, n).value.ledger.blocks == s.ledger.blocks
  {
    hide AddTransaction, KeySet;
    if n > 0 {
      AddTxsKeepHeight(s, txs, hashes, n - 1);
      AddTransactionLedger(AddTxs(s, txs, hashes, n - 1).value, txs[n - 1], hashes[n - 1]);
    }
  }

  lemma {:induction false} AddedTxsAreLocated(s: Store, txs: seq<Tx>, hashes: seq<Hash>, n: nat, j: nat)
    requires j < n <= |txs| == |hashes| && forall i | 0 <= i < |txs| :: txs[i].HasCommitments()
    requires AddTxs(s, txs, hashes, n).Success?
    ensures Located(AddTxs(s, txs, hashes, n).value, txs[j], hashes[j], |s.ledger.blocks|)
  {
    hide AddTransaction, Located;
    var before := AddTxs(s, txs, hashes, n - 1).value;
    AddTxsKeepHeight(s, txs, hashes, n - 1);
    if j == n - 1 {
      AddedIsLocated(before, txs[j], hashes[j]);
    } else {
      AddedTxsAreLocated(s, txs, hashes, n - 1, j);
      AddKeepsLocated(before, txs[n - 1], hashes[n - 1], txs[j], hashes[j], |s.ledger.blocks|);
    }
  }

  /** All transactions of a block are located, at its height. */
  ghost predicate LinkLocated(s: Store, link: Link, height: nat) {
    && |link.block.txHashes| == |link.txs|
    && Located(s, link.block.minerTx, link.block.minerTx.hash, height)
    && forall j | 0 <= j < |link.txs| :: Located(s, link.txs[j], link.block.txHashes[j], height)
  }

  lemma BlockEntryKeepsLocated(s: Store, blk: Block, numRctOuts: nat, tx: Tx, h: Hash, at: nat)
    requires AddBlockEntry(s.ledger, blk, numRctOuts).Success? && Located(s, tx, h, at)
    ensures Located(s.(ledger := AddBlockEntry(s.ledger, blk, numRctOuts).value), tx, h, at)
  {
    hide Leads;
  }

  lemma MinerKeepsHeight(s: Store, tx: Tx, hash: Hash)
    requires tx.HasCommitments() && AddTransaction(s, tx, hash).Success?
    ensures AddTransaction(s, tx, hash).value.ledger.blocks == s.ledger.blocks
  {
    hide AddTransaction, KeySet;
    AddTransactionLedger(s, tx, hash);
  }

  lemma AddedLinkIsLocated(s: Store, link: Link)
    requires link.HasCommitments() && AddBlock(s, link.block, link.txs).Success?
    ensures LinkLocated(AddBlock(s, link.block, link.txs).value, link, |s.ledger.blocks|)
  {
    hide AddTransaction, AddTxs, Located, AddBlockEntry, NumRctOuts;
    var Link(blk, txs) := link;
    var first, height := AddTransaction(s, blk.minerTx, blk.minerTx.hash).value, |s.ledger.blocks|;
    var all := AddTxs(first, txs, blk.txHashes, |txs|).value;
    MinerKeepsHeight(s, blk.minerTx, blk.minerTx.hash);
    AddedIsLocated(s, blk.minerTx, blk.minerTx.hash);
    AddTxsKeepLocated(first, txs, blk.txHashes, |txs|, blk.minerTx, blk.minerTx.hash, height);
    BlockEntryKeepsLocated(all, blk, NumRctOuts(blk, txs), blk.minerTx, blk.minerTx.hash, height);
    forall j | 0 <= j < |txs|
      ensures Located(AddBlock(s, blk, txs).value, txs[j], blk.txHashes[j], height)
    {
      AddedTxsAreLocated(first, txs, blk.txHashes, |txs|, j);
      BlockEntryKeepsLocated(all, blk, NumRctOuts(blk, txs), txs[j], blk.txHashes[j], height);
    }
  }

  lemma AddBlockKeepsLocated(s: Store, link: Link, other: Tx, h: Hash, at: nat)
    requires link.HasCommitments() && AddBlock(s, link.block, link.txs).Success? && Located(s, other, h, at)
    ensures Located(AddBlock(s, link.block, link.txs).value, other, h, at)
  {
    hide AddTransaction, AddTxs, Located, AddBlockEntry, NumRctOuts;
    var Link(blk, txs) := link;
    var first := AddTransaction(s, blk.minerTx, blk.minerTx.hash).value;
    var all := AddTxs(first, txs, blk.txHashes, |txs|).value;
    AddKeepsLocated(s, blk.minerTx, blk.minerTx.hash, other, h, at);
    AddTxsKeepLocated(first, txs, blk.txHashes, |txs|, other, h, at);
    BlockEntryKeepsLocated(all, blk, NumRctOuts(blk, txs), other, h, at);
  }

  lemma AddBlockHeight(s: Store, link: Link)
    requires link.HasCommitments() && AddBlock(s, link.block, link.txs).Success?
    ensures |AddBlock(s, link.block, link.txs).value.ledger.blocks| == |s.ledger.blocks| + 1
  {
    hide AddTransaction, AddTxs, NumRctOuts;
    var Link(blk, txs) := link;
    MinerKeepsHeight(s, blk.minerTx, blk.minerTx.hash);
    AddTxsKeepHeight(AddTransaction(s, blk.minerTx, blk.minerTx.hash).value, txs, blk.txHashes, |txs|);
  }

  lemma {:induction false} ChainHeight(chain: seq<Link>)
    requires (forall k | 0 <= k < |chain| :: chain[k].HasCommitments()) && StoreOf(chain).Success?
    ensures |StoreOf(chain).value.ledger.blocks| == |chain|
  {
    hide AddBlock;
    if |chain| > 0 {
      var n := |chain| - 1;
      assert chain[n].HasCommitments();
      ChainHeight(chain[..n]);
      AddBlockHeight(StoreOf(chain[..n]).value, chain[n]);
    }
  }

  /** In the store of a chain every transaction of every block is located. */
  lemma {:induction false} ChainLocated(chain: seq<Link>, i: nat)
    requires (forall k | 0 <= k < |chain| :: chain[k].HasCommitments()) && StoreOf(chain).Success? && i < |chain|
    ensures LinkLocated(StoreOf(chain).value, chain[i], i)
  {
    hide AddBlock, Located;
    var n := |chain| - 1;
    var before, last := StoreOf(chain[..n]).value, chain[n];
    assert last.HasCommitments();
    if i == n {
      ChainHeight(chain[..n]);
      AddedLinkIsLocated(before, last);
    } else {
      ChainLocated(chain[..n], i);
      var link := chain[i];
      AddBlockKeepsLocated(before, last, link.block.minerTx, link.block.minerTx.hash, i);
      forall j | 0 <= j < |link.txs|
        ensures Located(StoreOf(chain).value, link.txs[j], link.block.txHashes[j], i)
      {
        AddBlockKeepsLocated(before, last, link.txs[j], link.block.txHashes[j], i);
      }
    }
  }

  /** After every run of restorable blocks each output of each transaction of the chain is found under its index. */
  lemma RunLocated(ops: seq<Op>, i: nat)
    requires forall k | 0 <= k < |ops| :: RestorableOp(ops[k]) && Callable(ops[k])
    requires i < |Run(ops).chain|
    ensures LinkLocated(Run(ops).store, Run(ops).chain[i], i)
  {
    hide Run, StoreOf, LinkLocated;
    RunStore(ops);
    ChainLocated(Run(ops).chain, i);
  }

  // The accumulated number of amount-0 outputs

  ghost predicate ReportsRight(link: Link) {
    var miner := link.block.minerTx;
    NumRctOuts(link.block, link.txs) == CountStored(miner, |miner.vout|, 0) + TotalStored(link.txs, 0)
  }

  /** Blocks report what they store, and all but the first accumulate. */
  ghost predicate Accumulates(chain: seq<Link>) {
    forall i | 0 <= i < |chain| :: ReportsRight(chain[i]) && (i > 0 ==> chain[i].block.majorVersion >= 4)
  }

  lemma BlockAccumulates(s: Store, link: Link)
    requires link.HasCommitments() && AddBlock(s, link.block, link.txs).Success? && ReportsRight(link)
    ensures var added := AddBlock(s, link.block, link.txs).value; var n := |s.ledger.blocks|;
            && |added.ledger.blocks| == n + 1
            && var before := if n > 0 && link.block.majorVersion >= 4 then s.ledger.blocks[n - 1].cumRct else 0;
               added.ledger.blocks[n].cumRct - before == |added.outputs.List(0)| - |s.outputs.List(0)|
  {
    hide AddTransaction, AddTxs, NumRctOuts, CountStored, TotalStored, WithTx, WithTxs, FreshTx, FreshTxs;
    var Link(blk, txs) := link;
    var first := AddTransaction(s, blk.minerTx, blk.minerTx.hash).value;
    AddBlockLengths(s, blk, txs, 0);
    AddTransactionLedger(s, blk.minerTx, blk.minerTx.hash);
    AddTxsLedger(first, txs, blk.txHashes, |txs|);
    WithTxCounts(s.ledger, blk.minerTx, blk.minerTx.hash);
    WithTxsCounts(first.ledger, txs, blk.txHashes, |txs|);
  }

  /** The number kept with the top block is the length of the amount-0 list. */
  lemma {:induction false} ChainAccumulates(chain: seq<Link>)
    requires (forall k | 0 <= k < |chain| :: chain[k].HasCommitments()) && StoreOf(chain).Success? && Accumulates(chain)
    ensures var s := StoreOf(chain).value;
            && |s.ledger.blocks| == |chain|
            && |s.outputs.List(0)| == if |chain| == 0 then 0 else s.ledger.blocks[|chain| - 1].cumRct
  {
    hide AddBlock, ReportsRight;
    if |chain| > 0 {
      var n := |chain| - 1;
      assert chain[n].HasCommitments() && ReportsRight(chain[n]) && (n > 0 ==> chain[n].block.majorVersion >= 4);
      ChainAccumulates(chain[..n]);
      BlockAccumulates(StoreOf(chain[..n]).value, chain[n]);
    }
  }

  lemma RunAccumulates(ops: seq<Op>)
    requires forall k | 0 <= k < |ops| :: RestorableOp(ops[k]) && Callable(ops[k])
    requires Accumulates(Run(ops).chain) && Run(ops).chain != []
    ensures var s := Run(ops);
            && |s.store.ledger.blocks| == |s.chain|
            && s.store.ledger.blocks[|s.chain| - 1].cumRct == |s.store.outputs.List(0)|
  {
    hide Run, StoreOf;
    RunStore(ops);
    ChainAccumulates(Run(ops).chain);
  }
}
