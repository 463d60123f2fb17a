/**
 Adding and popping blocks. Popping the block that was added last gives back the store as it was before,
 and the transactions of the block in reverse order.
 */
module ChainStore {
  import opened ChainData
  import opened ChainLedger
  import opened Options
  import opened OutputTable

  datatype Store = Store(ledger: Ledger, txOutputs: map<nat, seq<nat>>, outputs: Outputs)

  const EMPTY := Store(Ledger({}, map[], [], map[]), map[], Outputs(map[], []))

  // One transaction

  predicate IdAppends(id: nat, l: Ledger) {
    forall h | h in l.txs :: l.txs[h].id < id
  }

  predicate IndicesAppend(id: nat, txOutputs: map<nat, seq<nat>>) {
    forall k | k in txOutputs :: k < id
  }

  /** `add_transaction` */
  function AddTransaction(s: Store, tx: Tx, hash: Hash): Result<Store>
    requires tx.HasCommitments()
  {
    var l, id := s.ledger, |s.ledger.txs|;
    match AddKeys(l.spent, tx.vin, |tx.vin|) {
      case Failure(e) => Failure(e)
      case Success(spent) =>
        if hash in l.txs then Failure(TxExists)
        else if !IdAppends(id, l) then Failure(DbFailure)
        else match AddOutputs(s.outputs, tx, hash, |l.blocks|, |tx.vout|) {
          case Failure(e) => Failure(e)
          case Success((outputs, indices)) =>
            if !IndicesAppend(id, s.txOutputs) then Failure(DbFailure)
            else Success(Store(l.(spent := spent, txs := l.txs[hash := TxEntry(id, tx, |l.blocks|)]),
                               s.txOutputs[id := indices], outputs))
        }
    }
  }

  /** `remove_transaction` */
  function RemoveTransaction(s: Store, hash: Hash): Result<Store> {
    if hash !in s.ledger.txs then Failure(TxMissing)
    else
      var TxEntry(id, tx, _) := s.ledger.txs[hash];
      if id !in s.txOutputs then Failure(OutputMissing)
      else if |s.txOutputs[id]| < |tx.vout| then Failure(DbFailure)
      else match RemoveOutputs(s.outputs, tx, s.txOutputs[id], |tx.vout|) {
        case Failure(e) => Failure(e)
        case Success(outputs) => Success(Store(WithoutTx(s.ledger, tx, hash), s.txOutputs - {id}, outputs))
      }
  }

  lemma AddTransactionLedger(s: Store, tx: Tx, hash: Hash)
    requires tx.HasCommitments() && AddTransaction(s, tx, hash).Success?
    ensures FreshTx(s.ledger, tx, hash)
    ensures AddTransaction(s, tx, hash).value.ledger == WithTx(s.ledger, tx, hash)
  {
    hide AddOutputs, AddKeys, FreshKeys, KeySet;
    AddKeysIff(s.ledger.spent, tx.vin, |tx.vin|);
  }

  lemma RemoveTransactionLedger(s: Store, hash: Hash)
    requires RemoveTransaction(s, hash).Success?
    ensures hash in s.ledger.txs
    ensures RemoveTransaction(s, hash).value.ledger == WithoutTx(s.ledger, s.ledger.txs[hash].tx, hash)
  {
    hide RemoveOutputs, KeySet;
  }

  lemma AddTransactionParts(s: Store, tx: Tx, hash: Hash)
    requires tx.HasCommitments() && AddTransaction(s, tx, hash).Success?
    ensures var added, id, outs := AddTransaction(s, tx, hash).value, |s.ledger.txs|,
              AddOutputs(s.outputs, tx, hash, |s.ledger.blocks|, |tx.vout|);
            && outs.Success? && added.outputs == outs.value.0
            && id !in s.txOutputs && added.txOutputs == s.txOutputs[id := outs.value.1]
            && hash in added.ledger.txs && added.ledger.txs[hash] == TxEntry(id, tx, |s.ledger.blocks|)
  {
    hide AddOutputs, AddKeys;
  }

  /**
   Removing a transaction that was just added restores the store exactly if its outputs are looked for where
   they are.
   */
  lemma UndoTransactionIff(s: Store, tx: Tx, hash: Hash)
    requires tx.HasCommitments() && s.outputs.Valid() && AddTransaction(s, tx, hash).Success?
    ensures RemoveTransaction(AddTransaction(s, tx, hash).value, hash) == Success(s) <==> tx.Restorable()
    ensures AddTransaction(s, tx, hash).value.outputs.Valid()
  {
    hide AddTransaction, AddOutputs, RemoveOutputs, WithTx, WithoutTx, FreshTx;
    var height := |s.ledger.blocks|;
    AddTransactionParts(s, tx, hash);
    AddTransactionLedger(s, tx, hash);
    WithoutWith(s.ledger, tx, hash);
    AddKeepsValid(s.outputs, tx, hash, height, |tx.vout|);
    if tx.Restorable() {
      UndoOutputs(s.outputs, tx, hash, height, |tx.vout|);
      var id, indices := |s.ledger.txs|, AddOutputs(s.outputs, tx, hash, height, |tx.vout|).value.1;
      assert s.txOutputs[id := indices] - {id} == s.txOutputs;
    } else {
      NotUndone(s.outputs, tx, hash, height);
    }
  }

  /** A version 3 transaction with a single gen input: its output is stored under its amount and looked for under 0. */
  lemma NotRestored()
    ensures var tx := Tx(3, [Gen], [TxOut(5, Some(1))], 0, [7], 9);
            && AddTransaction(EMPTY, tx, tx.hash).Success?
            && RemoveTransaction(AddTransaction(EMPTY, tx, tx.hash).value, tx.hash) != Success(EMPTY)
  {
    var tx := Tx(3, [Gen], [TxOut(5, Some(1))], 0, [7], 9);
    assert AddKeys({}, tx.vin, 1) == Success({}) by {
      assert AddKeys({}, tx.vin, 0) == Success({});
    }
    assert AddOutputs(EMPTY.outputs, tx, tx.hash, 0, 0) == Success((EMPTY.outputs, []));
    assert AddNext(EMPTY.outputs, tx, tx.hash, 0, 0).Success?;
    assert tx.StoredAmount(0) != tx.RemovedAmount(0);
    UndoTransactionIff(EMPTY, tx, tx.hash);
  }

  // A block

  function AddTxs(s: Store, txs: seq<Tx>, hashes: seq<Hash>, n: nat): Result<Store>
    requires n <= |txs| == |hashes| && forall i | 0 <= i < |txs| :: txs[i].HasCommitments()
  {
    if n == 0 then Success(s)
    else match AddTxs(s, txs, hashes, n - 1) {
      case Failure(e) => Failure(e)
      case Success(before) => AddTransaction(before, txs[n - 1], hashes[n - 1])
    }
  }

  function CountZero(vout: seq<TxOut>): nat {
    if |vout| == 0 then 0 else CountZero(vout[..|vout| - 1]) + if vout[|vout| - 1].amount == 0 then 1 else 0
  }

  function CountZeros(txs: seq<Tx>): nat {
    if |txs| == 0 then 0 else CountZeros(txs[..|txs| - 1]) + CountZero(txs[|txs| - 1].vout)
  }

  /** The number of amount-0 outputs that add_block reports. */
  function NumRctOuts(blk: Block, txs: seq<Tx>): nat {
    (if blk.minerTx.version == 2 then |blk.minerTx.vout| else 0) + CountZeros(txs)
  }

  ghost predicate BlockHasCommitments(blk: Block, txs: seq<Tx>) {
    blk.minerTx.HasCommitments() && forall i | 0 <= i < |txs| :: txs[i].HasCommitments()
  }

  /** `add_block`, without the hard fork state */
  ghost function AddBlock(s: Store, blk: Block, txs: seq<Tx>): Result<Store>
    requires BlockHasCommitments(blk, txs)
  {
    if |blk.txHashes| != |txs| then Failure(InconsistentSizes)
    else match AddTransaction(s, blk.minerTx, blk.minerTx.hash) {
      case Failure(e) => Failure(e)
      case Success(first) =>
        match AddTxs(first, txs, blk.txHashes, |txs|) {
          case Failure(e) => Failure(e)
          case Success(all) =>
            match AddBlockEntry(all.ledger, blk, NumRctOuts(blk, txs)) {
              case Failure(e) => Failure(e)
              case Success(l) => Success(all.(ledger := l))
            }
        }
    }
  }

  /** The loop of pop_block: transactions n - 1 down to 0. */
  function PopTxs(s: Store, hashes: seq<Hash>, n: nat): Result<(Store, seq<Tx>)>
    requires n <= |hashes|
    decreases n
  {
    if n == 0 then Success((s, []))
    else if hashes[n - 1] !in s.ledger.txs then Failure(DbFailure)
    else
      var tx := s.ledger.txs[hashes[n - 1]].tx;
      match RemoveTransaction(s, hashes[n - 1]) {
        case Failure(e) => Failure(e)
        case Success(rest) =>
          match PopTxs(rest, hashes, n - 1) {
            case Failure(e) => Failure(e)
            case Success((end, txs)) => Success((end, [tx] + txs))
          }
      }
  }

  datatype Popped = Popped(store: Store, block: Block, txs: seq<Tx>)

  /** `pop_block` */
  function PopBlock(s: Store): Result<Popped> {
    match RemoveBlockEntry(s.ledger) {
      case Failure(e) => Failure(e)
      case Success(l) =>
        var blk := s.ledger.blocks[|s.ledger.blocks| - 1].block;
        match PopTxs(s.(ledger := l), blk.txHashes, |blk.txHashes|) {
          case Failure(e) => Failure(e)
          case Success((end, txs)) =>
            match RemoveTransaction(end, blk.minerTx.hash) {
              case Failure(e) => Failure(e)
              case Success(first) => Success(Popped(first, blk, txs))
            }
        }
    }
  }

  function Reversed<T>(s: seq<T>): seq<T> {
    seq(|s|, i requires 0 <= i < |s| => s[|s| - 1 - i])
  }

  lemma ReversedNext<T>(s: seq<T>, n: nat)
    requires n < |s|
    ensures Reversed(s[..n + 1]) == [s[n]] + Reversed(s[..n])
  {}

  ghost predicate RestorableBlock(blk: Block, txs: seq<Tx>) {
    blk.minerTx.Restorable() && forall i | 0 <= i < |txs| :: txs[i].Restorable()
  }

  lemma {:induction false} AddTxsKeepsValid(s: Store, txs: seq<Tx>, hashes: seq<Hash>, n: nat)
    requires n <= |txs| == |hashes| && forall i | 0 <= i < |txs| :: txs[i].HasCommitments()
    requires s.outputs.Valid() && AddTxs(s, txs, hashes, n).Success?
    ensures AddTxs(s, txs, hashes, n).value.outputs.Valid()
  {
    hide AddTransaction, RemoveTransaction;
    if n > 0 {
      AddTxsKeepsValid(s, txs, hashes, n - 1);
      UndoTransactionIff(AddTxs(s, txs, hashes, n - 1).value, txs[n - 1], hashes[n - 1]);
    }
  }

  lemma {:induction false} PopAddedTxs(s: Store, txs: seq<Tx>, hashes: seq<Hash>, n: nat)
    requires n <= |txs| == |hashes| && forall i | 0 <= i < |txs| :: txs[i].HasCommitments()
    requires s.outputs.Valid() && AddTxs(s, txs, hashes, n).Success? && forall i | 0 <= i < |txs| :: txs[i].Restorable()
    ensures PopTxs(AddTxs(s, txs, hashes, n).value, hashes, n) == Success((s, Reversed(txs[..n])))
  {
    hide AddTransaction, RemoveTransaction, Reversed;
    if n == 0 {
      assert Reversed(txs[..0]) == [] by { ReversedNothing(txs); }
    } else {
      var before, after := AddTxs(s, txs, hashes, n - 1).value, AddTxs(s, txs, hashes, n).value;
      AddTxsKeepsValid(s, txs, hashes, n - 1);
      UndoTransactionIff(before, txs[n - 1], hashes[n - 1]);
      AddTransactionParts(before, txs[n - 1], hashes[n - 1]);
      PopAddedTxs(s, txs, hashes, n - 1);
      ReversedNext(txs, n - 1);
    }
  }

  lemma ReversedNothing<T>(s: seq<T>)
    ensures Reversed(s[..0]) == [] && s[..|s|] == s
  {}

  /** Popping the block that was added last restores the store and returns its transactions in reverse order. */
  lemma PopAdded(s: Store, blk: Block, txs: seq<Tx>)
    requires BlockHasCommitments(blk, txs) && s.outputs.Valid() && RestorableBlock(blk, txs)
    requires AddBlock(s, blk, txs).Success?
    ensures PopBlock(AddBlock(s, blk, txs).value) == Success(Popped(s, blk, Reversed(txs)))
    ensures AddBlock(s, blk, txs).value.outputs.Valid()
  {
    hide AddTransaction, RemoveTransaction, AddTxs, PopTxs, AddBlockEntry, RemoveBlockEntry, NumRctOuts, Reversed;
    var first := AddTransaction(s, blk.minerTx, blk.minerTx.hash).value;
    var all := AddTxs(first, txs, blk.txHashes, |txs|).value;
    UndoTransactionIff(s, blk.minerTx, blk.minerTx.hash);
    AddTxsKeepsValid(first, txs, blk.txHashes, |txs|);
    PopAddedTxs(first, txs, blk.txHashes, |txs|);
    ReversedNothing(txs);
    RemoveAddedBlock(all.ledger, blk, NumRctOuts(blk, txs));
    var added := AddBlock(s, blk, txs).value;
    assert added.(ledger := all.ledger) == all;
  }

  // The reported number of amount-0 outputs

  /** How many outputs of the transactions are stored under an amount. */
  function TotalStored(txs: seq<Tx>, a: nat): nat {
    if |txs| == 0 then 0
    else var tx := txs[|txs| - 1]; TotalStored(txs[..|txs| - 1], a) + CountStored(tx, |tx.vout|, a)
  }

  lemma {:induction false} CountStoredZero(tx: Tx, n: nat)
    requires n <= |tx.vout|
    ensures CountStored(tx, n, 0) == if tx.StoredAsRct() then n else CountZero(tx.vout[..n])
    ensures CountZero(tx.vout[..n]) <= n
  {
    if n > 0 {
      CountStoredZero(tx, n - 1);
      assert tx.vout[..n][..n - 1] == tx.vout[..n - 1];
    }
  }

  lemma AddTransactionLengths(s: Store, tx: Tx, hash: Hash, a: nat)
    requires tx.HasCommitments() && AddTransaction(s, tx, hash).Success?
    ensures |AddTransaction(s, tx, hash).value.outputs.List(a)| == |s.outputs.List(a)| + CountStored(tx, |tx.vout|, a)
  {
    hide AddTransaction, AddOutputs, CountStored;
    AddTransactionParts(s, tx, hash);
    AddOutputsLengths(s.outputs, tx, hash, |s.ledger.blocks|, |tx.vout|, a);
  }

  lemma {:induction false} AddTxsLengths(s: Store, txs: seq<Tx>, hashes: seq<Hash>, n: nat, a: nat)
    requires n <= |txs| == |hashes| && forall i | 0 <= i < |txs| :: txs[i].HasCommitments()
    requires AddTxs(s, txs, hashes, n).Success?
    ensures |AddTxs(s, txs, hashes, n).value.outputs.List(a)| == |s.outputs.List(a)| + TotalStored(txs[..n], a)
  {
    hide AddTransaction, CountStored;
    if n > 0 {
      AddTxsLengths(s, txs, hashes, n - 1, a);
      AddTransactionLengths(AddTxs(s, txs, hashes, n - 1).value, txs[n - 1], hashes[n - 1], a);
      assert txs[..n][..n - 1] == txs[..n - 1];
    }
  }

  /** Every list, so also that of amount 0, grows by exactly the outputs that are stored under its amount. */
  lemma AddBlockLengths(s: Store, blk: Block, txs: seq<Tx>, a: nat)
    requires BlockHasCommitments(blk, txs) && AddBlock(s, blk, txs).Success?
    ensures |AddBlock(s, blk, txs).value.outputs.List(a)|
            == |s.outputs.List(a)| + CountStored(blk.minerTx, |blk.minerTx.vout|, a) + TotalStored(txs, a)
  {
    hide AddTransaction, AddTxs, CountStored, TotalStored;
    var first := AddTransaction(s, blk.minerTx, blk.minerTx.hash).value;
    AddTransactionLengths(s, blk.minerTx, blk.minerTx.hash, a);
    AddTxsLengths(first, txs, blk.txHashes, |txs|, a);
    assert txs[..|txs|] == txs;
  }

  /** Outputs of later transactions that are stored under 0 but not counted. */
  function Uncounted(txs: seq<Tx>): nat {
    if |txs| == 0 then 0
    else
      var tx := txs[|txs| - 1];
      CountStoredZero(tx, |tx.vout|);
      assert tx.vout[..|tx.vout|] == tx.vout;
      Uncounted(txs[..|txs| - 1]) + if tx.StoredAsRct() then |tx.vout| - CountZero(tx.vout) else 0
  }

  lemma {:induction false} UncountedBalance(txs: seq<Tx>)
    ensures TotalStored(txs, 0) == CountZeros(txs) + Uncounted(txs)
    ensures Uncounted(txs) == 0 <==>
            forall i | 0 <= i < |txs| :: txs[i].StoredAsRct() ==> CountZero(txs[i].vout) == |txs[i].vout|
  {
    hide CountZero, CountStored;
    if |txs| > 0 {
      var n := |txs| - 1;
      var tx := txs[n];
      UncountedBalance(txs[..n]);
      CountStoredZero(tx, |tx.vout|);
      assert tx.vout[..|tx.vout|] == tx.vout;
    }
  }

  /** What is reported and what is stored, with everything that can make a difference. */
  lemma RctBalance(blk: Block, txs: seq<Tx>)
    ensures var miner := blk.minerTx;
            var stored := CountStored(miner, |miner.vout|, 0) + TotalStored(txs, 0);
            && CountZero(miner.vout) <= |miner.vout|
            && stored + (if miner.version == 2 && !miner.HasGen() then |miner.vout| - CountZero(miner.vout) else 0)
               == NumRctOuts(blk, txs) + (if miner.version == 2 then 0 else CountZero(miner.vout)) + Uncounted(txs)
  {
    hide CountZero, CountStored, TotalStored, CountZeros, Uncounted;
    var miner := blk.minerTx;
    CountStoredZero(miner, |miner.vout|);
    assert miner.vout[..|miner.vout|] == miner.vout;
    UncountedBalance(txs);
  }

  /** The report is right exactly if what is stored but not counted makes up for what is counted but not stored. */
  lemma RctReportedIff(blk: Block, txs: seq<Tx>)
    ensures var miner := blk.minerTx;
            NumRctOuts(blk, txs) == CountStored(miner, |miner.vout|, 0) + TotalStored(txs, 0) <==>
              (if miner.version == 2 then 0 else CountZero(miner.vout)) + Uncounted(txs)
              == if miner.version == 2 && !miner.HasGen() then |miner.vout| - CountZero(miner.vout) else 0
  {
    hide CountZero, CountStored, TotalStored, NumRctOuts, Uncounted;
    RctBalance(blk, txs);
  }

  /** For a miner transaction with a gen input nothing is counted that is not stored. */
  lemma RctReportedWithGen(blk: Block, txs: seq<Tx>)
    requires blk.minerTx.HasGen()
    ensures var miner := blk.minerTx;
            NumRctOuts(blk, txs) == CountStored(miner, |miner.vout|, 0) + TotalStored(txs, 0) <==>
              && (miner.version == 2 || CountZero(miner.vout) == 0)
              && forall i | 0 <= i < |txs| :: txs[i].StoredAsRct() ==> CountZero(txs[i].vout) == |txs[i].vout|
  {
    hide CountZero, CountStored, TotalStored, NumRctOuts, Uncounted;
    RctReportedIff(blk, txs);
    UncountedBalance(txs);
  }

  const SILENT_MINER := Tx(3, [Gen], [TxOut(0, Some(1))], 0, [7], 9)

  lemma SilentMinerAdded()
    ensures AddTransaction(EMPTY, SILENT_MINER, SILENT_MINER.hash).Success?
  {
    var tx := SILENT_MINER;
    assert AddKeys({}, tx.vin, 1) == Success({}) by {
      assert AddKeys({}, tx.vin, 0) == Success({});
    }
    assert AddOutputs(EMPTY.outputs, tx, tx.hash, 0, 0) == Success((EMPTY.outputs, []));
    assert AddNext(EMPTY.outputs, tx, tx.hash, 0, 0).Success?;
  }

  /**
   A block that is accepted, with one output stored under 0 and none reported: its miner transaction has
   version 3.
   */
  lemma RctMisreported()
    ensures var added := AddBlock(EMPTY, Block(1, 0, 1, SILENT_MINER, []), []);
            && added.Success? && |added.value.outputs.List(0)| == 1
            && |added.value.ledger.blocks| == 1 && added.value.ledger.blocks[0].cumRct == 0
  {
    hide AddTransaction;
    var tx, blk := SILENT_MINER, Block(1, 0, 1, SILENT_MINER, []);
    SilentMinerAdded();
    AddTransactionLedger(EMPTY, tx, tx.hash);
    assert AddTxs(AddTransaction(EMPTY, tx, tx.hash).value, [], [], 0) == AddTransaction(EMPTY, tx, tx.hash);
    assert NumRctOuts(blk, []) == 0;
    assert CountStored(tx, 1, 0) == 1;
    AddBlockLengths(EMPTY, blk, [], 0);
  }

  /** After a transaction is added, each of its outputs is found under the index stored for it. */
  lemma StoredIndicesLead(s: Store, tx: Tx, hash: Hash, i: nat)
    requires tx.HasCommitments() && AddTransaction(s, tx, hash).Success? && i < |tx.vout|
    ensures var added := AddTransaction(s, tx, hash).value;
            && hash in added.ledger.txs && added.ledger.txs[hash].id in added.txOutputs
            && var indices := added.txOutputs[added.ledger.txs[hash].id];
               |indices| == |tx.vout| && Leads(added.outputs, tx, hash, |s.ledger.blocks|, i, indices[i])
  {
    hide AddTransaction, AddOutputs, Leads;
    AddTransactionParts(s, tx, hash);
    IndicesLead(s.outputs, tx, hash, |s.ledger.blocks|, |tx.vout|, i);
  }
}
