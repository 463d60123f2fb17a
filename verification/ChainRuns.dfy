/**
 Runs of add_block and pop_block from the empty store. An operation that fails is rolled back by the
 transaction around it.
 */
module ChainRuns {
  import opened ChainData
  import opened ChainLedger
  import opened ChainStore
  import opened Options
  import opened OutputTable

  datatype Link = Link(block: Block, txs: seq<Tx>) {
    ghost predicate HasCommitments() {
      BlockHasCommitments(block, txs)
    }
  }

  datatype Op = Add(link: Link) | Pop

  /** The store and the blocks that were added and not popped. */
  datatype State = State(store: Store, chain: seq<Link>)

  ghost predicate Callable(op: Op) {
    op.Add? ==> op.link.HasCommitments()
  }

  ghost function Step(s: State, op: Op): State
    requires Callable(op)
  {
    match op
    case Add(link) =>
      (match AddBlock(s.store, link.block, link.txs) {
         case Failure(_) => s
         case Success(store) => State(store, s.chain + [link])
       })
    case Pop =>
      (match PopBlock(s.store) {
         case Failure(_) => s
         case Success(popped) => State(popped.store, if s.chain == [] then [] else s.chain[..|s.chain| - 1])
       })
  }

  ghost function Run(ops: seq<Op>): State
    requires forall i | 0 <= i < |ops| :: Callable(ops[i])
  {
    if |ops| == 0 then State(EMPTY, [])
    else Step(Run(ops[..|ops| - 1]), ops[|ops| - 1])
  }

  // Every run: the ledger is the one of the chain

  /** The ledger after one more block, if all its hashes and key images are new. */
  ghost function Extended(l: Ledger, link: Link): Option<Ledger> {
    var Link(blk, txs) := link;
    var first := WithTx(l, blk.minerTx, blk.minerTx.hash);
    if
      && |blk.txHashes| == |txs|
      && FreshTx(l, blk.minerTx, blk.minerTx.hash)
      && FreshTxs(first, txs, blk.txHashes, |txs|)
    then
      match AddBlockEntry(WithTxs(first, txs, blk.txHashes, |txs|), blk, NumRctOuts(blk, txs)) {
        case Failure(_) => None
        case Success(after) => Some(after)
      }
    else None
  }

  ghost function LedgerOf(chain: seq<Link>): Option<Ledger> {
    if |chain| == 0 then Some(EMPTY.ledger)
    else match LedgerOf(chain[..|chain| - 1]) {
      case None => None
      case Some(l) => Extended(l, chain[|chain| - 1])
    }
  }

  lemma {:induction false} AddTxsLedger(s: Store, txs: seq<Tx>, hashes: seq<Hash>, n: nat)
    requires n <= |txs| == |hashes| && forall i | 0 <= i < |txs| :: txs[i].HasCommitments()
    requires AddTxs(s, txs, hashes, n).Success?
    ensures FreshTxs(s.ledger, txs, hashes, n)
    ensures AddTxs(s, txs, hashes, n).value.ledger == WithTxs(s.ledger, txs, hashes, n)
  {
    hide AddTransaction, WithTx, FreshTx;
    if n > 0 {
      AddTxsLedger(s, txs, hashes, n - 1);
      AddTransactionLedger(AddTxs(s, txs, hashes, n - 1).value, txs[n - 1], hashes[n - 1]);
    }
  }

  lemma AddBlockLedger(s: Store, link: Link)
    requires link.HasCommitments() && AddBlock(s, link.block, link.txs).Success?
    ensures Extended(s.ledger, link) == Some(AddBlock(s, link.block, link.txs).value.ledger)
  {
    hide AddTransaction, AddTxs, WithTx, WithTxs, FreshTx, FreshTxs, AddBlockEntry;
    var Link(blk, txs) := link;
    AddTransactionLedger(s, blk.minerTx, blk.minerTx.hash);
    AddTxsLedger(AddTransaction(s, blk.minerTx, blk.minerTx.hash).value, txs, blk.txHashes, |txs|);
  }

  lemma WithTxEntry(l: Ledger, tx: Tx, hash: Hash)
    ensures hash in WithTx(l, tx, hash).txs && WithTx(l, tx, hash).txs[hash].tx == tx
  {}

  lemma {:induction false} PopTxsLedger(s: Store, l: Ledger, txs: seq<Tx>, hashes: seq<Hash>, n: nat)
    requires n <= |txs| == |hashes| && FreshTxs(l, txs, hashes, n) && s.ledger == WithTxs(l, txs, hashes, n)
    requires PopTxs(s, hashes, n).Success?
    ensures PopTxs(s, hashes, n).value.0.ledger == l
    ensures PopTxs(s, hashes, n).value.1 == Reversed(txs[..n])
    decreases n
  {
    hide RemoveTransaction, WithTx, WithoutTx, FreshTx, Reversed;
    if n == 0 {
      ReversedNothing(txs);
    } else {
      var before := WithTxs(l, txs, hashes, n - 1);
      assert FreshTx(before, txs[n - 1], hashes[n - 1]);
      WithTxEntry(before, txs[n - 1], hashes[n - 1]);
      RemoveTransactionLedger(s, hashes[n - 1]);
      WithoutWith(before, txs[n - 1], hashes[n - 1]);
      PopTxsLedger(RemoveTransaction(s, hashes[n - 1]).value, l, txs, hashes, n - 1);
      ReversedNext(txs, n - 1);
    }
  }

  /** A pop takes back exactly what the block added to the ledger, whatever the output lists are. */
  lemma PopBlockLedger(s: Store, l: Ledger, link: Link)
    requires Extended(l, link) == Some(s.ledger) && PopBlock(s).Success?
    ensures var p := PopBlock(s).value;
            p.store.ledger == l && p.block == link.block && p.txs == Reversed(link.txs)
  {
    hide RemoveTransaction, PopTxs, WithTx, WithTxs, WithoutTx, FreshTx, FreshTxs, AddBlockEntry, RemoveBlockEntry,
      Reversed;
    var Link(blk, txs) := link;
    var first := WithTx(l, blk.minerTx, blk.minerTx.hash);
    var all := WithTxs(first, txs, blk.txHashes, |txs|);
    RemoveAddedBlock(all, blk, NumRctOuts(blk, txs));
    PopTxsLedger(s.(ledger := all), first, txs, blk.txHashes, |txs|);
    ReversedNothing(txs);
    var end := PopTxs(s.(ledger := all), blk.txHashes, |txs|).value.0;
    RemoveTransactionLedger(end, blk.minerTx.hash);
    WithTxEntry(l, blk.minerTx, blk.minerTx.hash);
    WithoutWith(l, blk.minerTx, blk.minerTx.hash);
  }

  lemma LedgerOfNext(chain: seq<Link>, link: Link)
    requires LedgerOf(chain).Some?
    ensures LedgerOf(chain + [link]) == Extended(LedgerOf(chain).value, link)
  {
    assert (chain + [link])[..|chain|] == chain;
  }

  /** The store has a block exactly if the chain does. */
  lemma LedgerOfEmpty(chain: seq<Link>, l: Ledger)
    requires LedgerOf(chain) == Some(l)
    ensures |l.blocks| == 0 <==> chain == []
  {
    hide WithTx, WithTxs, FreshTx, FreshTxs;
  }

  /** After any run the key images, transactions and blocks in the store are those of the chain. */
  lemma {:induction false} RunLedger(ops: seq<Op>)
    requires forall i | 0 <= i < |ops| :: Callable(ops[i])
    ensures LedgerOf(Run(ops).chain) == Some(Run(ops).store.ledger)
  {
    hide AddBlock, PopBlock, LedgerOf, Extended;
    if |ops| == 0 {
      NoLinks();
    } else {
      var n := |ops| - 1;
      RunLedger(ops[..n]);
      StepLedger(Run(ops[..n]), ops[n]);
    }
  }

  lemma NoLinks()
    ensures LedgerOf([]) == Some(EMPTY.ledger)
  {}

  lemma StepLedger(s: State, op: Op)
    requires Callable(op) && LedgerOf(s.chain) == Some(s.store.ledger)
    ensures LedgerOf(Step(s, op).chain) == Some(Step(s, op).store.ledger)
  {
    hide AddBlock, PopBlock, Extended, LedgerOf;
    match op
    case Add(link) =>
      if AddBlock(s.store, link.block, link.txs).Success? {
        AddBlockLedger(s.store, link);
        LedgerOfNext(s.chain, link);
      }
    case Pop =>
      if PopBlock(s.store).Success? {
        PopNeedsBlock(s.store);
        LedgerOfEmpty(s.chain, s.store.ledger);
        var n := |s.chain| - 1;
        LedgerOfLast(s.chain);
        PopBlockLedger(s.store, LedgerOf(s.chain[..n]).value, s.chain[n]);
      }
  }

  lemma PopNeedsBlock(s: Store)
    requires PopBlock(s).Success?
    ensures |s.ledger.blocks| > 0
  {}

  lemma LedgerOfLast(chain: seq<Link>)
    requires |chain| > 0 && LedgerOf(chain).Some?
    ensures var n := |chain| - 1;
            LedgerOf(chain[..n]).Some? && LedgerOf(chain) == Extended(LedgerOf(chain[..n]).value, chain[n])
  {}

  // The spent keys are the disjoint union of the key images of the chain

  function TxsKeys(txs: seq<Tx>, n: nat): set<KeyImage>
    requires n <= |txs|
  {
    if n == 0 then {} else TxsKeys(txs, n - 1) + KeySet(txs[n - 1].vin, |txs[n - 1].vin|)
  }

  function TxsKeyCount(txs: seq<Tx>, n: nat): nat
    requires n <= |txs|
  {
    if n == 0 then 0 else TxsKeyCount(txs, n - 1) + KeyCount(txs[n - 1].vin, |txs[n - 1].vin|)
  }

  function ChainKeys(chain: seq<Link>): set<KeyImage> {
    if |chain| == 0 then {}
    else
      var Link(blk, txs) := chain[|chain| - 1];
      ChainKeys(chain[..|chain| - 1]) + KeySet(blk.minerTx.vin, |blk.minerTx.vin|) + TxsKeys(txs, |txs|)
  }

  /** All key images of the chain, with repetitions if there were any. */
  function ChainKeyCount(chain: seq<Link>): nat {
    if |chain| == 0 then 0
    else
      var Link(blk, txs) := chain[|chain| - 1];
      ChainKeyCount(chain[..|chain| - 1]) + KeyCount(blk.minerTx.vin, |blk.minerTx.vin|) + TxsKeyCount(txs, |txs|)
  }

  function ChainTxCount(chain: seq<Link>): nat {
    if |chain| == 0 then 0 else ChainTxCount(chain[..|chain| - 1]) + 1 + |chain[|chain| - 1].txs|
  }

  lemma WithTxCounts(l: Ledger, tx: Tx, hash: Hash)
    requires FreshTx(l, tx, hash)
    ensures var m := WithTx(l, tx, hash);
            && m.spent == l.spent + KeySet(tx.vin, |tx.vin|) && |m.spent| == |l.spent| + KeyCount(tx.vin, |tx.vin|)
            && |m.txs| == |l.txs| + 1 && m.blocks == l.blocks && m.heights == l.heights
  {
    hide KeySet, KeyCount;
    FreshKeysCount(l.spent, tx.vin, |tx.vin|);
  }

  lemma UnionAssociates<T>(a: set<T>, b: set<T>, c: set<T>)
    ensures a + (b + c) == a + b + c && a + {} == a
  {}

  lemma {:induction false} WithTxsCounts(l: Ledger, txs: seq<Tx>, hashes: seq<Hash>, n: nat)
    requires n <= |txs| == |hashes| && FreshTxs(l, txs, hashes, n)
    ensures var m := WithTxs(l, txs, hashes, n);
            && m.spent == l.spent + TxsKeys(txs, n) && |m.spent| == |l.spent| + TxsKeyCount(txs, n)
            && |m.txs| == |l.txs| + n && m.blocks == l.blocks && m.heights == l.heights
  {
    hide WithTx, FreshTx, KeySet, KeyCount;
    if n == 0 {
      UnionAssociates(l.spent, {}, {});
    } else {
      WithTxsCounts(l, txs, hashes, n - 1);
      WithTxCounts(WithTxs(l, txs, hashes, n - 1), txs[n - 1], hashes[n - 1]);
      UnionAssociates(l.spent, TxsKeys(txs, n - 1), KeySet(txs[n - 1].vin, |txs[n - 1].vin|));
    }
  }

  /**
   The spent keys are the key images of the chain, no key image occurs twice in it, and there are as
   many transactions and blocks as the chain has.
   */
  lemma {:induction false} SpentKeys(chain: seq<Link>, l: Ledger)
    requires LedgerOf(chain) == Some(l)
    ensures l.spent == ChainKeys(chain) && |l.spent| == ChainKeyCount(chain)
    ensures |l.txs| == ChainTxCount(chain)
    ensures |l.blocks| == |chain| && forall i | 0 <= i < |chain| :: l.blocks[i].block == chain[i].block
  {
    hide WithTx, WithTxs, FreshTx, FreshTxs, KeySet, KeyCount, TxsKeys, TxsKeyCount, NumRctOuts;
    if |chain| > 0 {
      var n := |chain| - 1;
      var Link(blk, txs) := chain[n];
      var before := LedgerOf(chain[..n]).value;
      SpentKeys(chain[..n], before);
      WithTxCounts(before, blk.minerTx, blk.minerTx.hash);
      WithTxsCounts(WithTx(before, blk.minerTx, blk.minerTx.hash), txs, blk.txHashes, |txs|);
    }
  }

  /** For every run: the spent keys are exactly the key images of the current chain, each counted once. */
  lemma RunSpentKeys(ops: seq<Op>)
    requires forall i | 0 <= i < |ops| :: Callable(ops[i])
    ensures var s := Run(ops);
            && s.store.ledger.spent == ChainKeys(s.chain) && |s.store.ledger.spent| == ChainKeyCount(s.chain)
            && |s.store.ledger.blocks| == |s.chain|
  {
    hide Run;
    RunLedger(ops);
    SpentKeys(Run(ops).chain, Run(ops).store.ledger);
  }

  // Runs of blocks whose outputs can be found again: the whole store is the one of the chain

  ghost predicate AllRestorable(chain: seq<Link>) {
    forall i | 0 <= i < |chain| :: chain[i].HasCommitments() && RestorableBlock(chain[i].block, chain[i].txs)
  }

  /** The store after adding the blocks of a chain to the empty one. */
  ghost function StoreOf(chain: seq<Link>): Result<Store>
    requires forall i | 0 <= i < |chain| :: chain[i].HasCommitments()
  {
    hide AddBlock, BlockHasCommitments;
    if |chain| == 0 then Success(EMPTY)
    else
      var last := chain[|chain| - 1];
      assert last.HasCommitments();
      match StoreOf(chain[..|chain| - 1]) {
        case Failure(e) => Failure(e)
        case Success(s) => AddBlock(s, last.block, last.txs)
      }
  }

  ghost predicate RestorableOp(op: Op) {
    op.Add? ==> op.link.HasCommitments() && RestorableBlock(op.link.block, op.link.txs)
  }

  lemma {:induction false} StoreOfValid(chain: seq<Link>)
    requires AllRestorable(chain) && StoreOf(chain).Success?
    ensures StoreOf(chain).value.outputs.Valid()
  {
    hide AddBlock, PopBlock, RestorableBlock;
    if |chain| > 0 {
      var n := |chain| - 1;
      StoreOfValid(chain[..n]);
      PopAdded(StoreOf(chain[..n]).value, chain[n].block, chain[n].txs);
    }
  }

  /** A block of the chain can always be popped, and popping it gives the store of the shorter chain. */
  lemma PopStoreOf(chain: seq<Link>)
    requires AllRestorable(chain) && StoreOf(chain).Success? && |chain| > 0
    ensures var n := |chain| - 1;
            && StoreOf(chain[..n]).Success?
            && PopBlock(StoreOf(chain).value) ==
               Success(Popped(StoreOf(chain[..n]).value, chain[n].block, Reversed(chain[n].txs)))
  {
    hide AddBlock, PopBlock, RestorableBlock, Reversed;
    var n := |chain| - 1;
    StoreOfValid(chain[..n]);
    PopAdded(StoreOf(chain[..n]).value, chain[n].block, chain[n].txs);
  }

  lemma StoreOfNext(chain: seq<Link>, link: Link)
    requires AllRestorable(chain) && link.HasCommitments() && RestorableBlock(link.block, link.txs)
             && StoreOf(chain).Success?
    ensures AllRestorable(chain + [link])
    ensures StoreOf(chain + [link]) == AddBlock(StoreOf(chain).value, link.block, link.txs)
  {
    hide AddBlock, BlockHasCommitments, RestorableBlock;
    assert (chain + [link])[..|chain|] == chain;
  }

  lemma StepStore(s: State, op: Op)
    requires RestorableOp(op) && AllRestorable(s.chain) && StoreOf(s.chain) == Success(s.store)
    ensures var t := Step(s, op); AllRestorable(t.chain) && StoreOf(t.chain) == Success(t.store)
  {
    hide AddBlock, PopBlock, RestorableBlock, StoreOf;
    match op
    case Add(link) =>
      if AddBlock(s.store, link.block, link.txs).Success? {
        StoreOfNext(s.chain, link);
      }
    case Pop =>
      if s.chain == [] {
        EmptyStore();
      } else {
        PopStoreOf(s.chain);
      }
  }

  lemma EmptyStore()
    ensures StoreOf([]) == Success(EMPTY) && PopBlock(EMPTY) == Failure(BlockMissing)
  {}

  /**
   After any run of adds and pops the store is the one that adding the blocks of the current chain
   builds: key images, transactions, output lists, indices and blocks.
   */
  lemma {:induction false} RunStore(ops: seq<Op>)
    requires forall i | 0 <= i < |ops| :: RestorableOp(ops[i]) && Callable(ops[i])
    ensures AllRestorable(Run(ops).chain) && StoreOf(Run(ops).chain) == Success(Run(ops).store)
  {
    hide Step, StoreOf;
    if |ops| == 0 {
      EmptyStore();
    } else {
      var n := |ops| - 1;
      RunStore(ops[..n]);
      StepStore(Run(ops[..n]), ops[n]);
    }
  }

  // Every run, also past a pop that took outputs from the wrong lists

  ghost predicate SoundOutputs(s: Store) {
    s.outputs.Valid() && s.outputs.IdsAscend()
  }

  lemma AddTransactionSound(s: Store, tx: Tx, hash: Hash)
    requires tx.HasCommitments() && SoundOutputs(s) && AddTransaction(s, tx, hash).Success?
    ensures SoundOutputs(AddTransaction(s, tx, hash).value)
  {
    hide AddTransaction, AddOutputs;
    AddTransactionParts(s, tx, hash);
    AddKeepsValid(s.outputs, tx, hash, |s.ledger.blocks|, |tx.vout|);
    AddOutputsKeepOrder(s.outputs, tx, hash, |s.ledger.blocks|, |tx.vout|);
  }

  lemma RemoveTransactionSound(s: Store, hash: Hash)
    requires SoundOutputs(s) && RemoveTransaction(s, hash).Success?
    ensures SoundOutputs(RemoveTransaction(s, hash).value)
  {
    hide RemoveOutputs, WithoutTx;
    var TxEntry(id, tx, _) := s.ledger.txs[hash];
    RemoveOutputsKeepOrder(s.outputs, tx, s.txOutputs[id], |tx.vout|);
  }

  lemma {:induction false} AddTxsSound(s: Store, txs: seq<Tx>, hashes: seq<Hash>, n: nat)
    requires n <= |txs| == |hashes| && forall i | 0 <= i < |txs| :: txs[i].HasCommitments()
    requires SoundOutputs(s) && AddTxs(s, txs, hashes, n).Success?
    ensures SoundOutputs(AddTxs(s, txs, hashes, n).value)
  {
    hide AddTransaction, SoundOutputs;
    if n > 0 {
      AddTxsSound(s, txs, hashes, n - 1);
      AddTransactionSound(AddTxs(s, txs, hashes, n - 1).value, txs[n - 1], hashes[n - 1]);
    }
  }

  lemma {:induction false} PopTxsSound(s: Store, hashes: seq<Hash>, n: nat)
    requires n <= |hashes| && SoundOutputs(s) && PopTxs(s, hashes, n).Success?
    ensures SoundOutputs(PopTxs(s, hashes, n).value.0)
    decreases n
  {
    hide RemoveTransaction, SoundOutputs;
    if n > 0 {
      RemoveTransactionSound(s, hashes[n - 1]);
      PopTxsSound(RemoveTransaction(s, hashes[n - 1]).value, hashes, n - 1);
    }
  }

  lemma StepSound(s: State, op: Op)
    requires Callable(op) && SoundOutputs(s.store)
    ensures SoundOutputs(Step(s, op).store)
  {
    hide AddTransaction, RemoveTransaction, AddTxs, PopTxs, AddBlockEntry, RemoveBlockEntry;
    match op
    case Add(link) =>
      var Link(blk, txs) := link;
      if AddBlock(s.store, blk, txs).Success? {
        AddTransactionSound(s.store, blk.minerTx, blk.minerTx.hash);
        AddTxsSound(AddTransaction(s.store, blk.minerTx, blk.minerTx.hash).value, txs, blk.txHashes, |txs|);
      }
    case Pop =>
      if PopBlock(s.store).Success? {
        PopNeedsBlock(s.store);
        var l, blk := RemoveBlockEntry(s.store.ledger).value, s.store.ledger.blocks[|s.store.ledger.blocks| - 1].block;
        PopTxsSound(s.store.(ledger := l), blk.txHashes, |blk.txHashes|);
        RemoveTransactionSound(PopTxs(s.store.(ledger := l), blk.txHashes, |blk.txHashes|).value.0, blk.minerTx.hash);
      }
  }

  /** In every run output ids ascend, so every output has its own, and no amount has an empty list. */
  lemma {:induction false} RunSound(ops: seq<Op>)
    requires forall i | 0 <= i < |ops| :: Callable(ops[i])
    ensures SoundOutputs(Run(ops).store)
  {
    hide Step;
    if |ops| > 0 {
      RunSound(ops[..|ops| - 1]);
      StepSound(Run(ops[..|ops| - 1]), ops[|ops| - 1]);
    }
  }
}
