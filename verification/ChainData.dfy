/** Blocks and transactions as the chain store sees them. Hashes, keys and key images are opaque numbers. */
module ChainData {
  import opened Options

  type Hash = nat
  type KeyImage = nat
  type PublicKey = nat

  /** The exceptions of the store. */
  datatype DbError =
    | InconsistentSizes
    | UnexpectedInput
    | KeyImageExists
    | TxExists
    | TxMissing
    | OutputMissing
    | BlockExists
    | BlockParentMissing
    | BlockMissing
    | DbFailure

  datatype Result<+T> = Success(value: T) | Failure(error: DbError)

  datatype TxIn = Gen | ToKey(keyImage: KeyImage) | OtherInput

  datatype TxOut = TxOut(amount: nat, key: Option<PublicKey>)

  /** A commitment from the transaction, or the one that stands for a public amount. */
  datatype Commitment = Committed(mask: nat) | ZeroCommit(amount: nat)

  /** `hash` is what get_transaction_hash computes; `outPk` are the commitments of the signature. */
  datatype Tx = Tx(version: nat, vin: seq<TxIn>, vout: seq<TxOut>, unlockTime: nat, outPk: seq<nat>, hash: Hash) {

    predicate HasGen() {
      Gen in vin
    }

    /** The condition of add_transaction for outputs that are stored as if their amount was 0. */
    predicate StoredAsRct() {
      HasGen() && version == 2
    }

    /** The condition of remove_tx_outputs for the same. */
    predicate RemovedAsRct() {
      version >= 2 && vin == [Gen]
    }

    function StoredAmount(i: nat): nat
      requires i < |vout|
    {
      if StoredAsRct() then 0 else vout[i].amount
    }

    function RemovedAmount(i: nat): nat
      requires i < |vout|
    {
      if RemovedAsRct() then 0 else vout[i].amount
    }

    /** The signature has a commitment for every output that needs one. */
    predicate HasCommitments() {
      version > 1 && !StoredAsRct() ==> |outPk| >= |vout|
    }

    function CommitmentOf(i: nat): Option<Commitment>
      requires i < |vout| && HasCommitments()
    {
      if StoredAsRct() then Some(ZeroCommit(vout[i].amount))
      else if version > 1 then Some(Committed(outPk[i]))
      else None
    }

    /** Outputs are removed from the lists they were stored in. */
    ghost predicate Restorable() {
      forall i | 0 <= i < |vout| :: StoredAmount(i) == RemovedAmount(i)
    }
  }

  /** The two conditions agree, or they do not matter. */
  lemma RestorableIff(tx: Tx)
    ensures tx.Restorable() <==>
            tx.StoredAsRct() == tx.RemovedAsRct() || forall i | 0 <= i < |tx.vout| :: tx.vout[i].amount == 0
  {
    if tx.Restorable() && tx.StoredAsRct() != tx.RemovedAsRct() {
      forall i | 0 <= i < |tx.vout|
        ensures tx.vout[i].amount == 0
      {
        assert tx.StoredAmount(i) == tx.RemovedAmount(i);
      }
    }
  }

  /** An ordinary miner transaction, and every transaction without a gen input, can be restored. */
  lemma OrdinaryRestorable(tx: Tx)
    requires !tx.HasGen() || (tx.vin == [Gen] && tx.version <= 2)
    ensures tx.Restorable()
  {
    if tx.vin == [Gen] {
      assert tx.vin[0] == Gen;
    }
  }

  /** `hash` is what get_block_hash computes. */
  datatype Block = Block(hash: Hash, prevId: Hash, majorVersion: nat, minerTx: Tx, txHashes: seq<Hash>)
}
