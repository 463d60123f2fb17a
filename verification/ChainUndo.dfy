/** When popping a block is the inverse of adding it. */
module ChainUndo {
  import opened ChainData
  import opened ChainLedger
  import opened ChainRuns
  import opened ChainStore
  import opened Options
  import opened OutputPlaces
  import opened OutputTable
  import opened Sequences

  /** How many outputs of the transactions are looked for under an amount. */
  function TotalRemoved(txs: seq<Tx>, a: nat): nat {
    if |txs| == 0 then 0
    else var tx := txs[|txs| - 1]; TotalRemoved(txs[..|txs| - 1], a) + CountRemoved(tx, |tx.vout|, a)
  }

  // What a pop takes from the lists

  lemma RemoveTransactionLengths(s: Store, hash: Hash, a: nat)
    requires RemoveTransaction(s, hash).Success?
    ensures hash in s.ledger.txs
    ensures var tx := s.ledger.txs[hash].tx;
            |RemoveTransaction(s, hash).value.outputs.List(a)| == |s.outputs.List(a)| - CountRemoved(tx, |tx.vout|, a)
  {
    hide RemoveOutputs, CountRemoved, WithoutTx;
    var TxEntry(id, tx, _) := s.ledger.txs[hash];
    RemoveOutputsLengths(s.outputs, tx, s.txOutputs[id], |tx.vout|, a);
  }

  lemma {:induction false} PopTxsLengths(s: Store, l: Ledger, txs: seq<Tx>, hashes: seq<Hash>, n: nat, a: nat)
    requires n <= |txs| == |hashes| && FreshTxs(l, txs, hashes, n) && s.ledger == WithTxs(l, txs, hashes, n)
    requires PopTxs(s, hashes, n).Success?
    ensures |PopTxs(s, hashes, n).value.0.outputs.List(a)| == |s.outputs.List(a)| - TotalRemoved(txs[..n], a)
    decreases n
  {
    hide RemoveTransaction, WithTx, WithoutTx, FreshTx, CountRemoved;
    if n > 0 {
      var before := WithTxs(l, txs, hashes, n - 1);
      assert FreshTx(before, txs[n - 1], hashes[n - 1]);
      WithTxEntry(before, txs[n - 1], hashes[n - 1]);
      RemoveTransactionLedger(s, hashes[n - 1]);
      RemoveTransactionLengths(s, hashes[n - 1], a);
      WithoutWith(before, txs[n - 1], hashes[n - 1]);
      PopTxsLengths(RemoveTransaction(s, hashes[n - 1]).value, l, txs, hashes, n - 1, a);
      assert txs[..n][..n - 1] == txs[..n - 1];
    }
  }

  lemma PopBlockLengths(s: Store, l: Ledger, link: Link, a: nat)
    requires Extended(l, link) == Some(s.ledger) && PopBlock(s).Success?
    ensures var miner := link.block.minerTx;
            |PopBlock(s).value.store.outputs.List(a)|
            == |s.outputs.List(a)| - CountRemoved(miner, |miner.vout|, a) - TotalRemoved(link.txs, a)
  {
    hide RemoveTransaction, PopTxs, WithTx, WithTxs, WithoutTx, FreshTx, FreshTxs, AddBlockEntry, RemoveBlockEntry,
      CountRemoved, TotalRemoved;
    var Link(blk, txs) := link;
    var first := WithTx(l, blk.minerTx, blk.minerTx.hash);
    var all := WithTxs(first, txs, blk.txHashes, |txs|);
    RemoveAddedBlock(all, blk, NumRctOuts(blk, txs));
    PopTxsLedger(s.(ledger := all), first, txs, blk.txHashes, |txs|);
    PopTxsLengths(s.(ledger := all), first, txs, blk.txHashes, |txs|, a);
    assert txs[..|txs|] == txs;
    var end := PopTxs(s.(ledger := all), blk.txHashes, |txs|).value.0;
    WithTxEntry(l, blk.minerTx, blk.minerTx.hash);
    RemoveTransactionLengths(end, blk.minerTx.hash, a);
  }

  // The exact condition

  ghost predicate Restores(s: Store, blk: Block, txs: seq<Tx>)
    requires BlockHasCommitments(blk, txs) && AddBlock(s, blk, txs).Success?
  {
    PopBlock(AddBlock(s, blk, txs).value) == Success(Popped(s, blk, Reversed(txs)))
  }

  /** Popping can restore the store only if every list loses as many outputs as it gained. */
  lemma RestoresOnlyIfBalanced(s: Store, blk: Block, txs: seq<Tx>, a: nat)
    requires BlockHasCommitments(blk, txs) && AddBlock(s, blk, txs).Success? && Restores(s, blk, txs)
    ensures var miner := blk.minerTx;
            CountStored(miner, |miner.vout|, a) + TotalStored(txs, a)
            == CountRemoved(miner, |miner.vout|, a) + TotalRemoved(txs, a)
  {
    hide AddBlock, PopBlock, Extended, CountStored, TotalStored, CountRemoved, TotalRemoved, Reversed;
    var link := Link(blk, txs);
    AddBlockLedger(s, link);
    AddBlockLengths(s, blk, txs, a);
    PopBlockLengths(AddBlock(s, blk, txs).value, s.ledger, link, a);
  }

  /** All transactions of the block, or all but one, look for their outputs where they are. */
  ghost predicate AtMostOneMisplaced(blk: Block, txs: seq<Tx>) {
    && (blk.minerTx.Restorable() || forall i | 0 <= i < |txs| :: txs[i].Restorable())
    && forall i, j | 0 <= i < j < |txs| :: txs[i].Restorable() || txs[j].Restorable()
  }

  lemma {:induction false} TotalsAgree(txs: seq<Tx>, a: nat)
    requires forall i | 0 <= i < |txs| :: txs[i].Restorable()
    ensures TotalStored(txs, a) == TotalRemoved(txs, a)
  {
    hide CountStored, CountRemoved;
    if |txs| > 0 {
      TotalsAgree(txs[..|txs| - 1], a);
      RestorableCounts(txs[|txs| - 1], |txs[|txs| - 1].vout|, a);
    }
  }

  lemma {:induction false} TotalsDiffer(txs: seq<Tx>, j: nat, a: nat)
    requires j < |txs| && forall i | 0 <= i < |txs| && i != j :: txs[i].Restorable()
    requires CountStored(txs[j], |txs[j].vout|, a) > CountRemoved(txs[j], |txs[j].vout|, a)
    ensures TotalStored(txs, a) > TotalRemoved(txs, a)
  {
    hide CountStored, CountRemoved;
    var n := |txs| - 1;
    if j == n {
      TotalsAgree(txs[..n], a);
    } else {
      TotalsDiffer(txs[..n], j, a);
      RestorableCounts(txs[n], |txs[n].vout|, a);
    }
  }

  /**
   If at most one transaction of a block looks for its outputs elsewhere, popping restores the store and returns
   the transactions in reverse order exactly if none does.
   */
  lemma PopAddedIff(s: Store, blk: Block, txs: seq<Tx>)
    requires BlockHasCommitments(blk, txs) && s.outputs.Valid() && AddBlock(s, blk, txs).Success?
    requires AtMostOneMisplaced(blk, txs)
    ensures Restores(s, blk, txs) <==> RestorableBlock(blk, txs)
  {
    hide AddBlock, CountStored, CountRemoved, TotalStored, TotalRemoved, Restores;
    if RestorableBlock(blk, txs) {
      RestorableRestores(s, blk, txs);
    } else if Restores(s, blk, txs) {
      var miner := blk.minerTx;
      if !miner.Restorable() {
        var a := MisplacedAmount(miner);
        RestoresOnlyIfBalanced(s, blk, txs, a);
        TotalsAgree(txs, a);
      } else {
        var j :| 0 <= j < |txs| && !txs[j].Restorable();
        var a := MisplacedAmount(txs[j]);
        RestoresOnlyIfBalanced(s, blk, txs, a);
        RestorableCounts(miner, |miner.vout|, a);
        OthersRestorable(blk, txs, j);
        TotalsDiffer(txs, j, a);
      }
    }
  }

  lemma RestorableRestores(s: Store, blk: Block, txs: seq<Tx>)
    requires BlockHasCommitments(blk, txs) && s.outputs.Valid() && AddBlock(s, blk, txs).Success?
    requires RestorableBlock(blk, txs)
    ensures Restores(s, blk, txs)
  {
    hide AddBlock, PopBlock, Reversed;
    PopAdded(s, blk, txs);
  }

  lemma OthersRestorable(blk: Block, txs: seq<Tx>, j: nat)
    requires AtMostOneMisplaced(blk, txs) && j < |txs| && !txs[j].Restorable()
    ensures forall i | 0 <= i < |txs| && i != j :: txs[i].Restorable()
  {}

  /** So for a block whose other transactions have no gen input it depends on the miner transaction alone. */
  lemma PopAddedIffMiner(s: Store, blk: Block, txs: seq<Tx>)
    requires BlockHasCommitments(blk, txs) && s.outputs.Valid() && AddBlock(s, blk, txs).Success?
    requires forall i | 0 <= i < |txs| :: !txs[i].HasGen()
    ensures Restores(s, blk, txs) <==> blk.minerTx.Restorable()
  {
    hide AddBlock, Restores;
    forall i | 0 <= i < |txs|
      ensures txs[i].Restorable()
    {
      OrdinaryRestorable(txs[i]);
    }
    PopAddedIff(s, blk, txs);
  }

  // The exact condition for every block

  /** What a removal of some outputs makes of the rest of an operation. */
  function RestoredTo<T>(r: Result<Outputs>, f: Outputs -> T): Result<T> {
    match r
    case Failure(e) => Failure(e)
    case Success(end) => Success(f(end))
  }

  /** Removing the last transaction from a store whose output table has changed. */
  lemma RemoveFrom(s: Store, tx: Tx, hash: Hash, middle: Outputs)
    requires tx.HasCommitments() && AddTransaction(s, tx, hash).Success?
    requires AddOutputs(s.outputs, tx, hash, |s.ledger.blocks|, |tx.vout|).Success?
    ensures var indices := AddOutputs(s.outputs, tx, hash, |s.ledger.blocks|, |tx.vout|).value.1;
            RemoveTransaction(AddTransaction(s, tx, hash).value.(outputs := middle), hash)
            == RestoredTo(RemoveOutputs(middle, tx, indices, |tx.vout|), end => s.(outputs := end))
  {
    hide AddTransaction, AddOutputs, RemoveOutputs, WithTx, WithoutTx, FreshTx;
    AddTransactionParts(s, tx, hash);
    AddTransactionLedger(s, tx, hash);
    WithoutWith(s.ledger, tx, hash);
    var id, indices := |s.ledger.txs|, AddOutputs(s.outputs, tx, hash, |s.ledger.blocks|, |tx.vout|).value.1;
    assert s.txOutputs[id := indices] - {id} == s.txOutputs;
  }

  lemma AddTransactionFills(base: Outputs, s: Store, slots: seq<Slot>, tx: Tx, hash: Hash)
    requires Filled(base, s.outputs, slots) && tx.HasCommitments() && AddTransaction(s, tx, hash).Success?
    ensures Filled(base, AddTransaction(s, tx, hash).value.outputs, slots + SlotsOf(tx, |tx.vout|))
  {
    hide AddTransaction, AddOutputs, Filled;
    AddTransactionParts(s, tx, hash);
    AddOutputsFill(base, s.outputs, slots, tx, hash, |s.ledger.blocks|, |tx.vout|);
  }

  /** Removing it looks at the places of its slots and leaves everything else as it was before. */
  lemma RemoveTransactionLooks(base: Outputs, s: Store, slots: seq<Slot>, tx: Tx, hash: Hash, middle: Outputs)
      returns (places: seq<Place>)
    requires Filled(base, s.outputs, slots) && tx.HasCommitments() && AddTransaction(s, tx, hash).Success?
    ensures RemovedFrom(base, slots + SlotsOf(tx, |tx.vout|)) == RemovedFrom(base, slots) + places
    ensures RemoveTransaction(AddTransaction(s, tx, hash).value.(outputs := middle), hash)
            == RestoredTo(RemoveAll(middle, places), end => s.(outputs := end))
  {
    hide AddTransaction, RemoveTransaction, AddOutputs, RemoveOutputs, Filled, RemoveAll, LookedAt;
    AddTransactionParts(s, tx, hash);
    var indices := AddOutputs(s.outputs, tx, hash, |s.ledger.blocks|, |tx.vout|).value.1;
    AddOutputsFill(base, s.outputs, slots, tx, hash, |s.ledger.blocks|, |tx.vout|);
    places := LookedAt(tx, indices, |tx.vout|);
    RemoveOutputsLooks(middle, tx, indices, |tx.vout|);
    RemoveFrom(s, tx, hash, middle);
  }

  function TxsSlots(txs: seq<Tx>, n: nat): seq<Slot>
    requires n <= |txs|
  {
    if n == 0 then [] else TxsSlots(txs, n - 1) + SlotsOf(txs[n - 1], |txs[n - 1].vout|)
  }

  lemma {:induction false} AddTxsFill(base: Outputs, s: Store, slots: seq<Slot>, txs: seq<Tx>, hashes: seq<Hash>,
                                      n: nat)
    requires n <= |txs| == |hashes| && forall i | 0 <= i < |txs| :: txs[i].HasCommitments()
    requires Filled(base, s.outputs, slots) && AddTxs(s, txs, hashes, n).Success?
    ensures Filled(base, AddTxs(s, txs, hashes, n).value.outputs, slots + TxsSlots(txs, n))
  {
    hide AddTransaction, Filled, SlotsOf;
    if n == 0 {
      assert slots + TxsSlots(txs, 0) == slots;
    } else {
      AddTxsFill(base, s, slots, txs, hashes, n - 1);
      var before := AddTxs(s, txs, hashes, n - 1).value;
      AddTransactionFills(base, before, slots + TxsSlots(txs, n - 1), txs[n - 1], hashes[n - 1]);
      AppendAssociates(slots, TxsSlots(txs, n - 1), SlotsOf(txs[n - 1], |txs[n - 1].vout|));
    }
  }

  /** Popping transactions looks at the places of their slots, the last first. */
  lemma {:induction false} PopTxsLook(base: Outputs, s: Store, slots: seq<Slot>, txs: seq<Tx>, hashes: seq<Hash>,
                                      n: nat, middle: Outputs)
      returns (places: seq<Place>)
    requires n <= |txs| == |hashes| && forall i | 0 <= i < |txs| :: txs[i].HasCommitments()
    requires Filled(base, s.outputs, slots) && AddTxs(s, txs, hashes, n).Success?
    ensures RemovedFrom(base, slots + TxsSlots(txs, n)) == RemovedFrom(base, slots) + places
    ensures PopTxs(AddTxs(s, txs, hashes, n).value.(outputs := middle), hashes, n)
            == RestoredTo(RemoveAll(middle, places), end => (s.(outputs := end), Reversed(txs[..n])))
    decreases n
  {
    hide AddTransaction, RemoveTransaction, Filled, SlotsOf, RemovedFrom, RemoveAll, Reversed;
    if n == 0 {
      places := [];
      AppendNothing(slots);
      AppendNothing(RemovedFrom(base, slots));
      ReversedNothing(txs);
      RemoveNothing(middle);
    } else {
      var before, tx, hash := AddTxs(s, txs, hashes, n - 1).value, txs[n - 1], hashes[n - 1];
      var mid := slots + TxsSlots(txs, n - 1);
      AddTxsFill(base, s, slots, txs, hashes, n - 1);
      AddTransactionParts(before, tx, hash);
      var last := RemoveTransactionLooks(base, before, mid, tx, hash, middle);
      var rest := RemoveAll(middle, last);
      var first := PopTxsLook(base, s, slots, txs, hashes, n - 1, if rest.Success? then rest.value else middle);
      places := first + last;
      RemoveAllConcat(middle, first, last);
      AppendAssociates(slots, TxsSlots(txs, n - 1), SlotsOf(tx, |tx.vout|));
      AppendAssociates(RemovedFrom(base, slots), first, last);
      ReversedNext(txs, n - 1);
    }
  }

  lemma RemoveNothing(o: Outputs)
    ensures RemoveAll(o, []) == Success(o)
  {}

  /** All outputs of a block, in the order they are added. */
  function BlockSlots(blk: Block, txs: seq<Tx>): seq<Slot> {
    SlotsOf(blk.minerTx, |blk.minerTx.vout|) + TxsSlots(txs, |txs|)
  }

  /** Popping a block that was just added: everything but the output table is as before, and that as its places say. */
  lemma PopBlockLooks(s: Store, blk: Block, txs: seq<Tx>)
    requires BlockHasCommitments(blk, txs) && s.outputs.Valid() && s.outputs.IdsAscend()
             && AddBlock(s, blk, txs).Success?
    ensures var added := AddBlock(s, blk, txs).value;
            && Filled(s.outputs, added.outputs, BlockSlots(blk, txs))
            && PopBlock(added) == RestoredTo(RemoveAll(added.outputs, RemovedFrom(s.outputs, BlockSlots(blk, txs))),
                                             end => Popped(s.(outputs := end), blk, Reversed(txs)))
  {
    hide AddTransaction, RemoveTransaction, AddTxs, PopTxs, Filled, SlotsOf, TxsSlots, RemovedFrom, RemoveAll, Reversed,
      AddBlockEntry, RemoveBlockEntry, NumRctOuts;
    var base, miner := s.outputs, blk.minerTx;
    var first := AddTransaction(s, miner, miner.hash).value;
    var all := AddTxs(first, txs, blk.txHashes, |txs|).value;
    var slots := SlotsOf(miner, |miner.vout|);
    FilledStarts(base);
    NoSlots(base, miner);
    AddTransactionFills(base, s, [], miner, miner.hash);
    AddTxsFill(base, first, slots, txs, blk.txHashes, |txs|);
    RemoveAddedBlock(all.ledger, blk, NumRctOuts(blk, txs));
    var added := AddBlock(s, blk, txs).value;
    var last := PopTxsLook(base, first, slots, txs, blk.txHashes, |txs|, all.outputs);
    var rest := RemoveAll(all.outputs, last);
    var middle := if rest.Success? then rest.value else all.outputs;
    var before := RemoveTransactionLooks(base, s, [], miner, miner.hash, middle);
    RemoveAllConcat(all.outputs, before, last);
    ReversedNothing(txs);
    assert added.(ledger := all.ledger) == all.(outputs := all.outputs);
  }

  lemma NoSlots(base: Outputs, tx: Tx)
    ensures [] + SlotsOf(tx, |tx.vout|) == SlotsOf(tx, |tx.vout|)
    ensures forall places: seq<Place> :: RemovedFrom(base, []) + places == places
  {}

  /**
   For every block: popping is the inverse of adding exactly if the places its outputs are stored at are, in some
   order, the places they are looked for. Both follow from the amounts and the lengths of the lists before the block.
   */
  lemma PopAddedExactly(s: Store, blk: Block, txs: seq<Tx>)
    requires BlockHasCommitments(blk, txs) && s.outputs.Valid() && s.outputs.IdsAscend()
             && AddBlock(s, blk, txs).Success?
    ensures Restores(s, blk, txs) <==>
            multiset(StoredAt(s.outputs, BlockSlots(blk, txs)))
            == multiset(RemovedFrom(s.outputs, BlockSlots(blk, txs)))
  {
    hide AddBlock, PopBlock, Filled, RemoveAll, StoredAt, RemovedFrom, BlockSlots, Reversed;
    var slots, added := BlockSlots(blk, txs), AddBlock(s, blk, txs).value;
    PopBlockLooks(s, blk, txs);
    RestoredIff(s.outputs, added.outputs, slots);
    var r := RemoveAll(added.outputs, RemovedFrom(s.outputs, slots));
    if r.Success? {
      assert s.(outputs := r.value) == s <==> r.value == s.outputs;
    }
  }

  // Two misplaced transactions in one block can make up for each other

  const PLAIN_MINER := Tx(1, [Gen], [], 0, [], 9)
  const CANCELLING := Block(4, 0, 1, PLAIN_MINER, [1, 2])
  const TXS_0 := map[9 := TxEntry(0, PLAIN_MINER, 0)]
  const TXS_1 := map[9 := TxEntry(0, PLAIN_MINER, 0), 1 := TxEntry(1, FIRST, 0)]
  const TXS_2 := map[9 := TxEntry(0, PLAIN_MINER, 0), 1 := TxEntry(1, FIRST, 0), 2 := TxEntry(2, SECOND, 0)]
  const STORE_0 := Store(Ledger({}, TXS_0, [], map[]), map[0 := []], NOTHING)
  const STORE_1 := Store(Ledger({}, TXS_1, [], map[]), map[0 := [], 1 := [0]], ONE)
  const STORE_2 := Store(Ledger({3}, TXS_2, [], map[]), map[0 := [], 1 := [0], 2 := [0]], TWO)

  lemma MinerAdded()
    ensures AddTransaction(EMPTY, PLAIN_MINER, 9) == Success(STORE_0)
  {
    assert AddKeys({}, PLAIN_MINER.vin, 1) == Success({}) by {
      assert AddKeys({}, PLAIN_MINER.vin, 0) == Success({});
    }
    assert AddOutputs(EMPTY.outputs, PLAIN_MINER, 9, 0, 0) == Success((NOTHING, []));
  }

  lemma FirstTxAdded()
    ensures AddTransaction(STORE_0, FIRST, 1) == Success(STORE_1)
  {
    hide AddNext;
    assert AddKeys({}, FIRST.vin, 1) == Success({}) by {
      assert AddKeys({}, FIRST.vin, 0) == Success({});
    }
    assert |TXS_0| == 1 && TXS_0[1 := TxEntry(1, FIRST, 0)] == TXS_1;
    FirstAdded();
    assert AddOutputs(NOTHING, FIRST, 1, 0, 0) == Success((NOTHING, []));
    assert [] + [0] == [0];
    assert AddOutputs(NOTHING, FIRST, 1, 0, 1) == Success((ONE, [0]));
  }

  lemma SecondKeys()
    ensures AddKeys({}, SECOND.vin, |SECOND.vin|) == Success({3})
  {
    assert AddKeys({}, SECOND.vin, 0) == Success({});
    assert AddKeys({}, SECOND.vin, 1) == Success({});
    assert {} + {3} == {3};
  }

  lemma SecondTxAdded()
    ensures AddTransaction(STORE_1, SECOND, 2) == Success(STORE_2)
  {
    hide AddNext, AddKeys;
    SecondKeys();
    assert |TXS_1| == 2 && TXS_1[2 := TxEntry(2, SECOND, 0)] == TXS_2;
    SecondAdded();
    assert AddOutputs(ONE, SECOND, 2, 0, 0) == Success((ONE, []));
    assert [] + [0] == [0];
    assert AddOutputs(ONE, SECOND, 2, 0, 1) == Success((TWO, [0]));
  }

  lemma BothAdded()
    ensures AddTxs(STORE_0, [FIRST, SECOND], [1, 2], 2) == Success(STORE_2)
  {
    hide AddTransaction;
    FirstTxAdded();
    SecondTxAdded();
    assert AddTxs(STORE_0, [FIRST, SECOND], [1, 2], 0) == Success(STORE_0);
    assert AddTxs(STORE_0, [FIRST, SECOND], [1, 2], 1) == Success(STORE_1);
  }

  lemma OneSlot(tx: Tx)
    requires |tx.vout| == 1
    ensures SlotsOf(tx, 1) == [SlotOf(tx, 0)]
  {
    assert SlotsOf(tx, 0) == [];
  }

  lemma TwoTxsSlots(a: Tx, b: Tx)
    requires |a.vout| == |b.vout| == 1
    ensures TxsSlots([a, b], 2) == [SlotOf(a, 0), SlotOf(b, 0)]
  {
    hide SlotsOf, SlotOf;
    OneSlot(a);
    OneSlot(b);
    assert TxsSlots([a, b], 0) == [];
    assert TxsSlots([a, b], 1) == [SlotOf(a, 0)];
  }

  lemma CancellingSlots()
    ensures BlockSlots(CANCELLING, [FIRST, SECOND]) == [Slot(5, 0), Slot(0, 5)]
  {
    hide TxsSlots;
    Amounts();
    TwoTxsSlots(FIRST, SECOND);
    assert SlotsOf(PLAIN_MINER, 0) == [];
  }

  lemma CancellingPlaces()
    ensures StoredAt(NOTHING, [Slot(5, 0), Slot(0, 5)]) == [Place(5, 0), Place(0, 0)]
    ensures RemovedFrom(NOTHING, [Slot(5, 0), Slot(0, 5)]) == [Place(0, 0), Place(5, 0)]
  {
    hide StoredAt, RemovedFrom, CountSlots;
    var first := Slot(5, 0);
    PlacesNext(NOTHING, [], first);
    PlacesNext(NOTHING, [first], Slot(0, 5));
    assert [] + [first] == [first] && [first] + [Slot(0, 5)] == [first, Slot(0, 5)];
    NoPlaces(NOTHING);
  }

  lemma NoPlaces(o: Outputs)
    ensures StoredAt(o, []) == [] && RemovedFrom(o, []) == [] && forall a: nat :: CountSlots([], a) == 0
  {}

  /** A block that is accepted and popped, restoring the store, although two of its transactions are misplaced. */
  lemma MisplacedBlockRestored()
    ensures BlockHasCommitments(CANCELLING, [FIRST, SECOND]) && AddBlock(EMPTY, CANCELLING, [FIRST, SECOND]).Success?
    ensures Restores(EMPTY, CANCELLING, [FIRST, SECOND]) && !RestorableBlock(CANCELLING, [FIRST, SECOND])
  {
    hide AddTransaction, AddTxs, BlockSlots, StoredAt, RemovedFrom, PopBlock, Reversed;
    var txs := [FIRST, SECOND];
    MinerAdded();
    BothAdded();
    Amounts();
    assert !txs[0].Restorable();
    CancellingSlots();
    CancellingPlaces();
    PopAddedExactly(EMPTY, CANCELLING, txs);
    assert multiset([Place(5, 0), Place(0, 0)]) == multiset([Place(0, 0), Place(5, 0)]);
  }
}
