/** The database class: operations on the store, and the loops that add and remove transactions and blocks. */
module ChainDb {
  import opened ChainData
  import opened ChainLedger
  import opened ChainStore
  import opened Options
  import opened OutputTable

  class BlockchainDB {
    var store: Store

    constructor ()
      ensures store == EMPTY
    {
      store := EMPTY;
    }

    // Operations of the store

    method AddSpentKey(k: KeyImage) returns (r: Result<()>)
      modifies this
      ensures r == if k in old(store.ledger.spent) then Failure(KeyImageExists) else Success(())
      ensures r.Failure? ==> store == old(store)
      ensures r.Success? ==>
                store == old(store).(ledger := old(store.ledger).(spent := old(store.ledger.spent) + {k}))
    {
      if k in store.ledger.spent {
        return Failure(KeyImageExists);
      }
      store := store.(ledger := store.ledger.(spent := store.ledger.spent + {k}));
      return Success(());
    }

    /** A key image that is not there is no error. */
    method RemoveSpentKey(k: KeyImage)
      modifies this
      ensures store == old(store).(ledger := old(store.ledger).(spent := old(store.ledger.spent) - {k}))
    {
      if k in store.ledger.spent {
        store := store.(ledger := store.ledger.(spent := store.ledger.spent - {k}));
      } else {
        assert store.ledger.spent - {k} == store.ledger.spent;
      }
    }

    method AddTransactionData(tx: Tx, hash: Hash) returns (r: Result<nat>)
      modifies this
      ensures var l := old(store.ledger); var id := |l.txs|;
              && r == (if hash in l.txs then Failure(TxExists)
                       else if !IdAppends(id, l) then Failure(DbFailure)
                       else Success(id))
              && (r.Failure? ==> store == old(store))
              && (r.Success? ==>
                    store == old(store).(ledger := l.(txs := l.txs[hash := TxEntry(id, tx, |l.blocks|)])))
    {
      var l := store.ledger;
      var id := |l.txs|;
      if hash in l.txs {
        return Failure(TxExists);
      }
      if !IdAppends(id, l) {
        return Failure(DbFailure);
      }
      store := store.(ledger := l.(txs := l.txs[hash := TxEntry(id, tx, |l.blocks|)]));
      return Success(id);
    }

    // Transactions

    /** The inputs of `add_transaction` */
    method AddInputs(tx: Tx) returns (r: Result<bool>)
      modifies this
      ensures r.Success? ==>
                && r.value == tx.HasGen()
                && AddKeys(old(store.ledger.spent), tx.vin, |tx.vin|) == Success(store.ledger.spent)
      ensures r.Failure? ==> AddKeys(old(store.ledger.spent), tx.vin, |tx.vin|) == Failure(r.error)
      ensures store == old(store).(ledger := old(store.ledger).(spent := store.ledger.spent))
    {
      var minerTx := false;
      for i := 0 to |tx.vin|
        invariant AddKeys(old(store.ledger.spent), tx.vin, i) == Success(store.ledger.spent)
        invariant store == old(store).(ledger := old(store.ledger).(spent := store.ledger.spent))
        invariant minerTx <==> Gen in tx.vin[..i]
      {
        match tx.vin[i] {
          case ToKey(k) =>
            var added := AddSpentKey(k);
            if added.Failure? {
              AddKeysFails(old(store.ledger.spent), tx.vin, i + 1, |tx.vin|);
              return Failure(added.error);
            }
          case Gen =>
            minerTx := true;
          case OtherInput =>
            AddKeysFails(old(store.ledger.spent), tx.vin, i + 1, |tx.vin|);
            return Failure(UnexpectedInput);
        }
        assert tx.vin[..i + 1] == tx.vin[..i] + [tx.vin[i]];
      }
      assert tx.vin[..|tx.vin|] == tx.vin;
      return Success(minerTx);
    }

    /** The outputs of `add_transaction` */
    method AddTxOutputs(tx: Tx, hash: Hash, minerTx: bool) returns (r: Result<seq<nat>>)
      requires tx.HasCommitments() && minerTx == tx.HasGen()
      modifies this
      ensures var outs := AddOutputs(old(store.outputs), tx, hash, |old(store.ledger.blocks)|, |tx.vout|);
              if r.Success? then outs == Success((store.outputs, r.value)) else outs == Failure(r.error)
      ensures store == old(store).(outputs := store.outputs)
    {
      hide AddOutput;
      ghost var height := |store.ledger.blocks|;
      var indices: seq<nat> := [];
      for i := 0 to |tx.vout|
        invariant AddOutputs(old(store.outputs), tx, hash, height, i) == Success((store.outputs, indices))
        invariant store == old(store).(outputs := store.outputs)
      {
        var out := tx.vout[i];
        var added: Result<(Outputs, nat)>;
        if minerTx && tx.version == 2 {
          added := AddOutput(store.outputs, hash, i, out.(amount := 0), tx.unlockTime, |store.ledger.blocks|,
                             Some(ZeroCommit(out.amount)));
        } else {
          added := AddOutput(store.outputs, hash, i, out, tx.unlockTime, |store.ledger.blocks|,
                             if tx.version > 1 then Some(Committed(tx.outPk[i])) else None);
        }
        assert added == AddNext(store.outputs, tx, hash, height, i);
        if added.Failure? {
          AddOutputsFails(old(store.outputs), tx, hash, height, i + 1, |tx.vout|);
          return Failure(added.error);
        }
        store := store.(outputs := added.value.0);
        indices := indices + [added.value.1];
      }
      return Success(indices);
    }

    /** `add_transaction` */
    method AddTransaction(tx: Tx, hash: Hash) returns (r: Result<()>)
      requires tx.HasCommitments()
      modifies this
      ensures if r.Success? then ChainStore.AddTransaction(old(store), tx, hash) == Success(store)
              else ChainStore.AddTransaction(old(store), tx, hash) == Failure(r.error)
    {
      hide AddKeys, AddOutputs;
      var inputs := AddInputs(tx);
      if inputs.Failure? {
        return Failure(inputs.error);
      }
      var data := AddTransactionData(tx, hash);
      if data.Failure? {
        assert IdAppends(|old(store.ledger.txs)|, old(store.ledger)) == IdAppends(|store.ledger.txs|, store.ledger);
        return Failure(data.error);
      }
      var outs := AddTxOutputs(tx, hash, inputs.value);
      if outs.Failure? {
        return Failure(outs.error);
      }
      if !IndicesAppend(data.value, store.txOutputs) {
        return Failure(DbFailure);
      }
      store := store.(txOutputs := store.txOutputs[data.value := outs.value]);
      return Success(());
    }

    /** `remove_tx_outputs` of the store */
    method RemoveTxOutputs(tx: Tx, indices: seq<nat>) returns (r: Result<()>)
      requires |indices| >= |tx.vout|
      modifies this
      ensures var outs := RemoveOutputs(old(store.outputs), tx, indices, |tx.vout|);
              if r.Success? then outs == Success(store.outputs) else outs == Failure(r.error)
      ensures store == old(store).(outputs := store.outputs)
    {
      hide RemoveOutput;
      var isPseudoRct := tx.version >= 2 && |tx.vin| == 1 && tx.vin[0] == Gen;
      assert isPseudoRct <==> tx.RemovedAsRct();
      for i := |tx.vout| downto 0
        invariant RemoveOutputs(old(store.outputs), tx, indices, |tx.vout|)
                  == RemoveOutputs(store.outputs, tx, indices, i)
        invariant store == old(store).(outputs := store.outputs)
      {
        var amount := if isPseudoRct then 0 else tx.vout[i].amount;
        var removed := RemoveOutput(store.outputs, amount, indices[i]);
        if removed.Failure? {
          return Failure(removed.error);
        }
        store := store.(outputs := removed.value);
      }
      return Success(());
    }

    /** `remove_transaction` */
    method RemoveTransaction(hash: Hash) returns (r: Result<()>)
      modifies this
      ensures if r.Success? then ChainStore.RemoveTransaction(old(store), hash) == Success(store)
              else ChainStore.RemoveTransaction(old(store), hash) == Failure(r.error)
    {
      hide KeySet, RemoveOutputs;
      if hash !in store.ledger.txs {
        return Failure(TxMissing);
      }
      var TxEntry(id, tx, _) := store.ledger.txs[hash];
      KeySetStarts(tx.vin, store.ledger.spent);
      for i := 0 to |tx.vin|
        invariant var spent := old(store.ledger.spent) - KeySet(tx.vin, i);
                  store == old(store).(ledger := old(store.ledger).(spent := spent))
      {
        KeySetNext(tx.vin, i + 1);
        if tx.vin[i].ToKey? {
          RemoveSpentKey(tx.vin[i].keyImage);
          Removals(old(store.ledger.spent), KeySet(tx.vin, i), tx.vin[i].keyImage);
        }
      }
      if id !in store.txOutputs {
        return Failure(OutputMissing);
      }
      if |store.txOutputs[id]| < |tx.vout| {
        return Failure(DbFailure);
      }
      var removed := RemoveTxOutputs(tx, store.txOutputs[id]);
      if removed.Failure? {
        return Failure(removed.error);
      }
      store := Store(store.ledger.(txs := store.ledger.txs - {hash}), store.txOutputs - {id}, store.outputs);
      return Success(());
    }

    // Blocks

    /** `add_block`: adds all transactions, counts the amount-0 outputs, adds the block. */
    method AddBlock(blk: Block, txs: seq<Tx>) returns (r: Result<nat>)
      requires BlockHasCommitments(blk, txs)
      modifies this
      ensures r.Success? ==> r.value == |old(store.ledger.blocks)|
      ensures if r.Success? then ChainStore.AddBlock(old(store), blk, txs) == Success(store)
              else ChainStore.AddBlock(old(store), blk, txs) == Failure(r.error)
    {
      hide ChainStore.AddTransaction, AddBlockEntry, CountZero;
      if |blk.txHashes| != |txs| {
        return Failure(InconsistentSizes);
      }
      var prevHeight := |store.ledger.blocks|;
      var numRctOuts := 0;
      var added := AddTransaction(blk.minerTx, blk.minerTx.hash);
      if added.Failure? {
        return Failure(added.error);
      }
      ghost var first := store;
      if blk.minerTx.version == 2 {
        numRctOuts := numRctOuts + |blk.minerTx.vout|;
      }
      ghost var minerOuts := numRctOuts;
      NoTxs(txs);
      for i := 0 to |txs|
        invariant AddTxs(first, txs, blk.txHashes, i) == Success(store)
        invariant numRctOuts == minerOuts + CountZeros(txs[..i])
      {
        added := AddTransaction(txs[i], blk.txHashes[i]);
        if added.Failure? {
          AddTxsFails(first, txs, blk.txHashes, i + 1, |txs|);
          return Failure(added.error);
        }
        var zeros := CountZeroAmounts(txs[i].vout);
        numRctOuts := numRctOuts + zeros;
        assert txs[..i + 1][..i] == txs[..i];
      }
      assert txs[..|txs|] == txs;
      var ledger := AddBlockEntry(store.ledger, blk, numRctOuts);
      if ledger.Failure? {
        return Failure(ledger.error);
      }
      store := store.(ledger := ledger.value);
      return Success(prevHeight);
    }

    /** `pop_block` */
    method PopBlock() returns (r: Result<(Block, seq<Tx>)>)
      modifies this
      ensures if r.Success? then ChainStore.PopBlock(old(store)) == Success(Popped(store, r.value.0, r.value.1))
              else ChainStore.PopBlock(old(store)) == Failure(r.error)
    {
      hide ChainStore.RemoveTransaction, RemoveBlockEntry;
      BlockIsThere(store.ledger);
      var ledger := RemoveBlockEntry(store.ledger);
      if ledger.Failure? {
        return Failure(ledger.error);
      }
      var blk := store.ledger.blocks[|store.ledger.blocks| - 1].block;
      store := store.(ledger := ledger.value);
      ghost var start := store;
      var hashes := blk.txHashes;
      var txs: seq<Tx> := [];
      PrependNone(PopTxs(start, hashes, |hashes|));
      for i := |hashes| downto 0
        invariant PopTxs(start, hashes, |hashes|) == Prepended(txs, PopTxs(store, hashes, i))
      {
        if hashes[i] !in store.ledger.txs {
          return Failure(DbFailure);
        }
        var tx := store.ledger.txs[hashes[i]].tx;
        var removed := RemoveTransaction(hashes[i]);
        if removed.Failure? {
          return Failure(removed.error);
        }
        PrependOne(txs, tx, PopTxs(store, hashes, i));
        txs := txs + [tx];
      }
      assert txs + [] == txs;
      var removed := RemoveTransaction(blk.minerTx.hash);
      if removed.Failure? {
        return Failure(removed.error);
      }
      return Success((blk, txs));
    }
  }

  lemma {:induction false} AddKeysFails(spent: set<KeyImage>, vin: seq<TxIn>, k: nat, n: nat)
    requires k <= n <= |vin| && AddKeys(spent, vin, k).Failure?
    ensures AddKeys(spent, vin, n) == AddKeys(spent, vin, k)
  {
    if k < n {
      AddKeysFails(spent, vin, k, n - 1);
    }
  }

  lemma {:induction false} AddOutputsFails(o: Outputs, tx: Tx, hash: Hash, height: nat, k: nat, n: nat)
    requires k <= n <= |tx.vout| && tx.HasCommitments() && AddOutputs(o, tx, hash, height, k).Failure?
    ensures AddOutputs(o, tx, hash, height, n) == AddOutputs(o, tx, hash, height, k)
  {
    hide AddNext;
    if k < n {
      AddOutputsFails(o, tx, hash, height, k, n - 1);
    }
  }

  lemma KeySetStarts(vin: seq<TxIn>, spent: set<KeyImage>)
    ensures spent - KeySet(vin, 0) == spent
  {}

  lemma Removals<T>(a: set<T>, b: set<T>, x: T)
    ensures a - b - {x} == a - (b + {x})
  {}

  method CountZeroAmounts(vout: seq<TxOut>) returns (zeros: nat)
    ensures zeros == CountZero(vout)
  {
    zeros := 0;
    for i := 0 to |vout|
      invariant zeros == CountZero(vout[..i])
    {
      if vout[i].amount == 0 {
        zeros := zeros + 1;
      }
      assert vout[..i + 1][..i] == vout[..i];
    }
    assert vout[..|vout|] == vout;
  }

  lemma NoTxs(txs: seq<Tx>)
    ensures CountZeros(txs[..0]) == 0
  {}

  lemma {:induction false} AddTxsFails(s: Store, txs: seq<Tx>, hashes: seq<Hash>, k: nat, n: nat)
    requires k <= n <= |txs| == |hashes| && (forall i | 0 <= i < |txs| :: txs[i].HasCommitments())
    requires AddTxs(s, txs, hashes, k).Failure?
    ensures AddTxs(s, txs, hashes, n) == AddTxs(s, txs, hashes, k)
  {
    hide ChainStore.AddTransaction;
    if k < n {
      AddTxsFails(s, txs, hashes, k, n - 1);
    }
  }

  lemma BlockIsThere(l: Ledger)
    ensures RemoveBlockEntry(l).Success? ==> |l.blocks| > 0
  {}

  /** The transactions popped so far, before the rest. */
  function Prepended(txs: seq<Tx>, r: Result<(Store, seq<Tx>)>): Result<(Store, seq<Tx>)> {
    match r
    case Failure(e) => Failure(e)
    case Success((s, rest)) => Success((s, txs + rest))
  }

  lemma PrependNone(r: Result<(Store, seq<Tx>)>)
    ensures Prepended([], r) == r
  {
    if r.Success? {
      assert [] + r.value.1 == r.value.1;
    }
  }

  lemma PrependOne(txs: seq<Tx>, tx: Tx, r: Result<(Store, seq<Tx>)>)
    ensures Prepended(txs, Prepended([tx], r)) == Prepended(txs + [tx], r)
  {
    if r.Success? {
      assert txs + ([tx] + r.value.1) == txs + [tx] + r.value.1;
    }
  }
}
