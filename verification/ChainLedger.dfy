/** The tables of the chain that do not depend on the output lists: key images, transactions and blocks. */
module ChainLedger {
  import opened ChainData

  datatype TxEntry = TxEntry(id: nat, tx: Tx, height: nat)

  datatype BlockEntry = BlockEntry(block: Block, cumRct: nat)

  datatype Ledger = Ledger(spent: set<KeyImage>, txs: map<Hash, TxEntry>, blocks: seq<BlockEntry>,
                           heights: map<Hash, nat>)

  // Key images

  /** The key images of the first n inputs. */
  function KeySet(vin: seq<TxIn>, n: nat): set<KeyImage>
    requires n <= |vin|
  {
    if n == 0 then {} else KeySet(vin, n - 1) + (if vin[n - 1].ToKey? then {vin[n - 1].keyImage} else {})
  }

  function KeyCount(vin: seq<TxIn>, n: nat): nat
    requires n <= |vin|
  {
    if n == 0 then 0 else KeyCount(vin, n - 1) + (if vin[n - 1].ToKey? then 1 else 0)
  }

  /** The loop of add_transaction over the inputs. */
  function AddKeys(spent: set<KeyImage>, vin: seq<TxIn>, n: nat): Result<set<KeyImage>>
    requires n <= |vin|
  {
    if n == 0 then Success(spent)
    else match AddKeys(spent, vin, n - 1) {
      case Failure(e) => Failure(e)
      case Success(keys) =>
        match vin[n - 1] {
          case ToKey(k) => if k in keys then Failure(KeyImageExists) else Success(keys + {k})
          case Gen => Success(keys)
          case OtherInput => Failure(UnexpectedInput)
        }
    }
  }

  /** No two key images are the same and none is spent. */
  ghost predicate FreshKeys(spent: set<KeyImage>, vin: seq<TxIn>, n: nat)
    requires n <= |vin|
  {
    && (forall i | 0 <= i < n && vin[i].ToKey? :: vin[i].keyImage !in spent)
    && (forall i, j | 0 <= i < j < n && vin[i].ToKey? && vin[j].ToKey? :: vin[i].keyImage != vin[j].keyImage)
  }

  lemma {:induction false} KeySetMember(vin: seq<TxIn>, n: nat, k: KeyImage)
    requires n <= |vin|
    ensures k in KeySet(vin, n) <==> exists i | 0 <= i < n && vin[i].ToKey? :: vin[i].keyImage == k
  {
    if n > 0 {
      KeySetMember(vin, n - 1, k);
    }
  }

  /** Double spends are refused: the inputs are accepted exactly if they are supported and their keys fresh. */
  lemma {:induction false} AddKeysIff(spent: set<KeyImage>, vin: seq<TxIn>, n: nat)
    requires n <= |vin|
    ensures AddKeys(spent, vin, n).Success?
            <==> FreshKeys(spent, vin, n) && forall i | 0 <= i < n :: vin[i] != OtherInput
    ensures AddKeys(spent, vin, n).Success? ==> AddKeys(spent, vin, n).value == spent + KeySet(vin, n)
  {
    if n > 0 {
      AddKeysIff(spent, vin, n - 1);
      if vin[n - 1].ToKey? {
        KeySetMember(vin, n - 1, vin[n - 1].keyImage);
      }
    }
  }

  lemma FreshKeysRestored(spent: set<KeyImage>, vin: seq<TxIn>, n: nat)
    requires n <= |vin| && FreshKeys(spent, vin, n)
    ensures spent + KeySet(vin, n) - KeySet(vin, n) == spent
  {
    hide KeySet;
    forall k: KeyImage | k in KeySet(vin, n)
      ensures k !in spent
    {
      KeySetMember(vin, n, k);
    }
    SetRestored(spent, KeySet(vin, n));
  }

  lemma SetRestored<T>(a: set<T>, b: set<T>)
    requires forall x | x in b :: x !in a
    ensures a + b - b == a
  {}

  lemma OneMore<T>(a: set<T>, b: set<T>, x: T)
    requires x !in a && x !in b
    ensures |a + (b + {x})| == |a + b| + 1
  {
    assert a + (b + {x}) == (a + b) + {x};
  }

  lemma NoneMore<T>(b: set<T>)
    ensures b + {} == b
  {}

  /** Every key image counts: the union is disjoint. */
  lemma {:induction false} FreshKeysCount(spent: set<KeyImage>, vin: seq<TxIn>, n: nat)
    requires n <= |vin| && FreshKeys(spent, vin, n)
    ensures |spent + KeySet(vin, n)| == |spent| + KeyCount(vin, n)
  {
    hide KeySet;
    KeySetNext(vin, n);
    if n == 0 {
      NoneMore(spent);
    } else {
      FreshKeysCount(spent, vin, n - 1);
      if vin[n - 1].ToKey? {
        KeySetMember(vin, n - 1, vin[n - 1].keyImage);
        OneMore(spent, KeySet(vin, n - 1), vin[n - 1].keyImage);
      }
    }
  }

  lemma KeySetNext(vin: seq<TxIn>, n: nat)
    requires n <= |vin|
    ensures n == 0 ==> KeySet(vin, n) == {}
    ensures n > 0 && vin[n - 1].ToKey? ==> KeySet(vin, n) == KeySet(vin, n - 1) + {vin[n - 1].keyImage}
    ensures n > 0 && !vin[n - 1].ToKey? ==> KeySet(vin, n) == KeySet(vin, n - 1)
  {
    if n > 0 {
      NoneMore(KeySet(vin, n - 1));
    }
  }

  // Transactions

  function WithTx(l: Ledger, tx: Tx, hash: Hash): Ledger {
    l.(spent := l.spent + KeySet(tx.vin, |tx.vin|), txs := l.txs[hash := TxEntry(|l.txs|, tx, |l.blocks|)])
  }

  function WithoutTx(l: Ledger, tx: Tx, hash: Hash): Ledger {
    l.(spent := l.spent - KeySet(tx.vin, |tx.vin|), txs := l.txs - {hash})
  }

  ghost predicate FreshTx(l: Ledger, tx: Tx, hash: Hash) {
    FreshKeys(l.spent, tx.vin, |tx.vin|) && hash !in l.txs
  }

  lemma WithoutWith(l: Ledger, tx: Tx, hash: Hash)
    requires FreshTx(l, tx, hash)
    ensures WithoutTx(WithTx(l, tx, hash), tx, hash) == l
  {
    hide KeySet;
    FreshKeysRestored(l.spent, tx.vin, |tx.vin|);
    assert l.txs[hash := TxEntry(|l.txs|, tx, |l.blocks|)] - {hash} == l.txs;
  }

  /** The first n transactions of a block. */
  function WithTxs(l: Ledger, txs: seq<Tx>, hashes: seq<Hash>, n: nat): Ledger
    requires n <= |txs| == |hashes|
  {
    if n == 0 then l else WithTx(WithTxs(l, txs, hashes, n - 1), txs[n - 1], hashes[n - 1])
  }

  ghost predicate FreshTxs(l: Ledger, txs: seq<Tx>, hashes: seq<Hash>, n: nat)
    requires n <= |txs| == |hashes|
  {
    forall k | 0 <= k < n :: FreshTx(WithTxs(l, txs, hashes, k), txs[k], hashes[k])
  }

  // Blocks

  /** `add_block` of the store */
  function AddBlockEntry(l: Ledger, blk: Block, numRctOuts: nat): Result<Ledger> {
    var height := |l.blocks|;
    if blk.hash in l.heights then Failure(BlockExists)
    else if height > 0 && blk.prevId !in l.heights then Failure(DbFailure)
    else if height > 0 && l.heights[blk.prevId] != height - 1 then Failure(BlockParentMissing)
    else if height == 0 && blk.majorVersion >= 4 then Failure(BlockMissing)
    else
      var cumRct := numRctOuts + if blk.majorVersion >= 4 then l.blocks[height - 1].cumRct else 0;
      Success(l.(blocks := l.blocks + [BlockEntry(blk, cumRct)], heights := l.heights[blk.hash := height]))
  }

  /** `remove_block` of the store */
  function RemoveBlockEntry(l: Ledger): Result<Ledger> {
    if |l.blocks| == 0 then Failure(BlockMissing)
    else
      var last := |l.blocks| - 1;
      var hash := l.blocks[last].block.hash;
      if hash !in l.heights then Failure(DbFailure)
      else Success(l.(blocks := l.blocks[..last], heights := l.heights - {hash}))
  }

  lemma RemoveAddedBlock(l: Ledger, blk: Block, numRctOuts: nat)
    requires AddBlockEntry(l, blk, numRctOuts).Success?
    ensures var added := AddBlockEntry(l, blk, numRctOuts).value;
            && |added.blocks| > 0 && added.blocks[|added.blocks| - 1].block == blk
            && RemoveBlockEntry(added) == Success(l)
  {
    var added := AddBlockEntry(l, blk, numRctOuts).value;
    assert added.blocks[..|l.blocks|] == l.blocks;
    assert l.heights[blk.hash := |l.blocks|] - {blk.hash} == l.heights;
  }
}
