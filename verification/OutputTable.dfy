/** The outputs of the chain: a list for every amount, and where every output comes from. */
module OutputTable {
  import opened ChainData
  import opened Options

  datatype OutKey = OutKey(amountIndex: nat, outputId: nat, key: PublicKey, unlockTime: nat, height: nat,
                           commitment: Option<Commitment>)

  /** Where an output comes from. */
  datatype OutTx = OutTx(outputId: nat, txHash: Hash, localIndex: nat)

  datatype Outputs = Outputs(amounts: map<nat, seq<OutKey>>, outputTxs: seq<OutTx>) {

    function List(amount: nat): seq<OutKey> {
      if amount in amounts then amounts[amount] else []
    }

    /** `num_outputs`: one more than the last output id. */
    function NumOutputs(): nat {
      if |outputTxs| == 0 then 0 else outputTxs[|outputTxs| - 1].outputId + 1
    }

    /** An amount without outputs has no list. */
    ghost predicate Valid() {
      forall a | a in amounts :: amounts[a] != []
    }

    ghost predicate IdsAscend() {
      forall i, j | 0 <= i < j < |outputTxs| :: outputTxs[i].outputId < outputTxs[j].outputId
    }
  }

  /** A new index goes to the end of a list, or is refused. */
  predicate AppendsToList(index: nat, list: seq<OutKey>) {
    forall p | 0 <= p < |list| :: list[p].amountIndex < index
  }

  /** `add_output` of the store, for output i of a transaction with its amount and its commitment. */
  function AddOutput(o: Outputs, hash: Hash, i: nat, out: TxOut, unlockTime: nat, height: nat,
                     commitment: Option<Commitment>)
      : Result<(Outputs, nat)>
  {
    var id, list := o.NumOutputs(), o.List(out.amount);
    if out.key.None? || (out.amount == 0 && commitment.None?) then Failure(DbFailure)
    else if !AppendsToList(|list|, list) then Failure(DbFailure)
    else
      var outKey := OutKey(|list|, id, out.key.value, unlockTime, height, if out.amount == 0 then commitment else None);
      Success((Outputs(o.amounts[out.amount := list + [outKey]], o.outputTxs + [OutTx(id, hash, i)]), |list|))
  }

  /** The position of an index in a list, or -1. */
  function Find(list: seq<OutKey>, index: nat): (p: int)
    ensures -1 <= p < |list|
    ensures p >= 0 ==> list[p].amountIndex == index
  {
    if |list| == 0 then -1
    else if list[|list| - 1].amountIndex == index then |list| - 1
    else Find(list[..|list| - 1], index)
  }

  /** The position of an output id, or -1. */
  function FindTx(txs: seq<OutTx>, id: nat): (p: int)
    ensures -1 <= p < |txs|
    ensures p >= 0 ==> txs[p].outputId == id
  {
    if |txs| == 0 then -1
    else if txs[|txs| - 1].outputId == id then |txs| - 1
    else FindTx(txs[..|txs| - 1], id)
  }

  function Without<T>(s: seq<T>, p: nat): seq<T>
    requires p < |s|
  {
    s[..p] + s[p + 1..]
  }

  /** `remove_output` of the store */
  function RemoveOutput(o: Outputs, amount: nat, index: nat): Result<Outputs> {
    var list := o.List(amount);
    var p := Find(list, index);
    if p < 0 then Failure(OutputMissing)
    else
      var q := FindTx(o.outputTxs, list[p].outputId);
      if q < 0 then Failure(DbFailure)
      else
        var rest := Without(list, p);
        var amounts := if rest == [] then o.amounts - {amount} else o.amounts[amount := rest];
        Success(Outputs(amounts, Without(o.outputTxs, q)))
  }

  // One output

  lemma RemoveAdded(o: Outputs, hash: Hash, i: nat, out: TxOut, unlockTime: nat, height: nat,
                    commitment: Option<Commitment>)
    requires o.Valid() && AddOutput(o, hash, i, out, unlockTime, height, commitment).Success?
    ensures var (added, index) := AddOutput(o, hash, i, out, unlockTime, height, commitment).value;
            added.Valid() && RemoveOutput(added, out.amount, index) == Success(o)
  {
    hide Find, FindTx, Without;
    var (added, index) := AddOutput(o, hash, i, out, unlockTime, height, commitment).value;
    var a, list := out.amount, o.List(out.amount);
    var last := added.List(a)[|list|];
    FindLast(list, last);
    FindTxLast(o.outputTxs, OutTx(o.NumOutputs(), hash, i));
    ListRestored(o.amounts, a, list, last);
  }

  lemma ListRestored(m: map<nat, seq<OutKey>>, a: nat, list: seq<OutKey>, last: OutKey)
    requires list == if a in m then m[a] else []
    requires a in m ==> m[a] != []
    ensures var added := m[a := list + [last]];
            (if list == [] then added - {a} else added[a := list]) == m
  {}

  lemma FindLast(list: seq<OutKey>, last: OutKey)
    ensures Find(list + [last], last.amountIndex) == |list| && Without(list + [last], |list|) == list
  {}

  lemma FindTxLast(txs: seq<OutTx>, last: OutTx)
    ensures FindTx(txs + [last], last.outputId) == |txs| && Without(txs + [last], |txs|) == txs
  {}

  /** Ids stay in order, and no two outputs share one, also after an output in the middle was removed. */
  lemma AddKeepsOrder(o: Outputs, hash: Hash, i: nat, out: TxOut, unlockTime: nat, height: nat,
                      commitment: Option<Commitment>)
    requires o.IdsAscend() && AddOutput(o, hash, i, out, unlockTime, height, commitment).Success?
    ensures AddOutput(o, hash, i, out, unlockTime, height, commitment).value.0.IdsAscend()
  {}

  lemma RemoveKeepsOrder(o: Outputs, amount: nat, index: nat)
    requires o.Valid() && o.IdsAscend() && RemoveOutput(o, amount, index).Success?
    ensures RemoveOutput(o, amount, index).value.Valid() && RemoveOutput(o, amount, index).value.IdsAscend()
  {
    hide Find, FindTx;
  }

  lemma AddLengths(o: Outputs, hash: Hash, i: nat, out: TxOut, unlockTime: nat, height: nat,
                   commitment: Option<Commitment>, a: nat)
    requires AddOutput(o, hash, i, out, unlockTime, height, commitment).Success?
    ensures var (added, index) := AddOutput(o, hash, i, out, unlockTime, height, commitment).value;
            |added.List(a)| == |o.List(a)| + if a == out.amount then 1 else 0
  {}

  lemma RemoveLengths(o: Outputs, amount: nat, index: nat, a: nat)
    requires RemoveOutput(o, amount, index).Success?
    ensures |RemoveOutput(o, amount, index).value.List(a)| == |o.List(a)| - if a == amount then 1 else 0
  {}

  // The outputs of a transaction

  function AddOutputs(o: Outputs, tx: Tx, hash: Hash, height: nat, n: nat): (r: Result<(Outputs, seq<nat>)>)
    requires n <= |tx.vout| && tx.HasCommitments()
    ensures r.Success? ==> |r.value.1| == n
  {
    if n == 0 then Success((o, []))
    else match AddOutputs(o, tx, hash, height, n - 1) {
      case Failure(e) => Failure(e)
      case Success((before, indices)) =>
        match AddNext(before, tx, hash, height, n - 1) {
          case Failure(e) => Failure(e)
          case Success((after, index)) => Success((after, indices + [index]))
        }
    }
  }

  /** Output i with the amount it is stored under. */
  function AddNext(o: Outputs, tx: Tx, hash: Hash, height: nat, i: nat): Result<(Outputs, nat)>
    requires i < |tx.vout| && tx.HasCommitments()
  {
    AddOutput(o, hash, i, tx.vout[i].(amount := tx.StoredAmount(i)), tx.unlockTime, height, tx.CommitmentOf(i))
  }

  /** Removes outputs n - 1 down to 0. */
  function RemoveOutputs(o: Outputs, tx: Tx, indices: seq<nat>, n: nat): Result<Outputs>
    requires n <= |tx.vout| && n <= |indices|
    decreases n
  {
    if n == 0 then Success(o)
    else match RemoveOutput(o, tx.RemovedAmount(n - 1), indices[n - 1]) {
      case Failure(e) => Failure(e)
      case Success(rest) => RemoveOutputs(rest, tx, indices, n - 1)
    }
  }

  lemma {:induction false} AddKeepsValid(o: Outputs, tx: Tx, hash: Hash, height: nat, n: nat)
    requires n <= |tx.vout| && tx.HasCommitments() && o.Valid() && AddOutputs(o, tx, hash, height, n).Success?
    ensures AddOutputs(o, tx, hash, height, n).value.0.Valid()
  {
    hide AddOutput;
    if n > 0 {
      AddKeepsValid(o, tx, hash, height, n - 1);
      var before := AddOutputs(o, tx, hash, height, n - 1).value.0;
      RemoveAdded(before, hash, n - 1, tx.vout[n - 1].(amount := tx.StoredAmount(n - 1)), tx.unlockTime, height,
                  tx.CommitmentOf(n - 1));
    }
  }

  /** Removing looks only at the indices it needs. */
  lemma {:induction false} RemovePrefix(o: Outputs, tx: Tx, a: seq<nat>, b: seq<nat>, n: nat)
    requires n <= |tx.vout| && n <= |a| && n <= |b| && a[..n] == b[..n]
    ensures RemoveOutputs(o, tx, a, n) == RemoveOutputs(o, tx, b, n)
    decreases n
  {
    hide RemoveOutput;
    if n > 0 {
      assert a[..n][n - 1] == b[..n][n - 1];
      assert a[..n - 1] == a[..n][..n - 1] && b[..n - 1] == b[..n][..n - 1];
      var first := RemoveOutput(o, tx.RemovedAmount(n - 1), a[n - 1]);
      if first.Success? {
        RemovePrefix(first.value, tx, a, b, n - 1);
      }
    }
  }

  /** If outputs are looked for where they were stored, removing them restores the table. */
  lemma {:induction false} UndoOutputs(o: Outputs, tx: Tx, hash: Hash, height: nat, n: nat)
    requires n <= |tx.vout| && tx.HasCommitments() && o.Valid() && tx.Restorable()
    requires AddOutputs(o, tx, hash, height, n).Success?
    ensures var (added, indices) := AddOutputs(o, tx, hash, height, n).value;
            RemoveOutputs(added, tx, indices, n) == Success(o)
  {
    hide AddOutput, RemoveOutput;
    if n > 0 {
      var (before, indices) := AddOutputs(o, tx, hash, height, n - 1).value;
      AddKeepsValid(o, tx, hash, height, n - 1);
      UndoOutputs(o, tx, hash, height, n - 1);
      RemoveAdded(before, hash, n - 1, tx.vout[n - 1].(amount := tx.StoredAmount(n - 1)), tx.unlockTime, height,
                  tx.CommitmentOf(n - 1));
      assert tx.StoredAmount(n - 1) == tx.RemovedAmount(n - 1);
      var all := AddOutputs(o, tx, hash, height, n).value.1;
      RemovePrefix(before, tx, indices, all, n - 1);
    }
  }

  // Otherwise it does not

  /** How many of the first n outputs are stored under an amount. */
  function CountStored(tx: Tx, n: nat, a: nat): nat
    requires n <= |tx.vout|
  {
    if n == 0 then 0 else CountStored(tx, n - 1, a) + if tx.StoredAmount(n - 1) == a then 1 else 0
  }

  /** How many of the first n outputs are removed from an amount. */
  function CountRemoved(tx: Tx, n: nat, a: nat): nat
    requires n <= |tx.vout|
  {
    if n == 0 then 0 else CountRemoved(tx, n - 1, a) + if tx.RemovedAmount(n - 1) == a then 1 else 0
  }

  lemma {:induction false} AddOutputsLengths(o: Outputs, tx: Tx, hash: Hash, height: nat, n: nat, a: nat)
    requires n <= |tx.vout| && tx.HasCommitments() && AddOutputs(o, tx, hash, height, n).Success?
    ensures |AddOutputs(o, tx, hash, height, n).value.0.List(a)| == |o.List(a)| + CountStored(tx, n, a)
  {
    hide AddOutput;
    if n > 0 {
      AddOutputsLengths(o, tx, hash, height, n - 1, a);
      AddLengths(AddOutputs(o, tx, hash, height, n - 1).value.0, hash, n - 1,
                 tx.vout[n - 1].(amount := tx.StoredAmount(n - 1)), tx.unlockTime, height, tx.CommitmentOf(n - 1), a);
    }
  }

  lemma {:induction false} RemoveOutputsLengths(o: Outputs, tx: Tx, indices: seq<nat>, n: nat, a: nat)
    requires n <= |tx.vout| && n <= |indices| && RemoveOutputs(o, tx, indices, n).Success?
    ensures |RemoveOutputs(o, tx, indices, n).value.List(a)| == |o.List(a)| - CountRemoved(tx, n, a)
    decreases n
  {
    hide RemoveOutput;
    if n > 0 {
      RemoveLengths(o, tx.RemovedAmount(n - 1), indices[n - 1], a);
      RemoveOutputsLengths(RemoveOutput(o, tx.RemovedAmount(n - 1), indices[n - 1]).value, tx, indices, n - 1, a);
    }
  }

  lemma {:induction false} CountAllSame(tx: Tx, n: nat, a: nat)
    requires n <= |tx.vout|
    ensures tx.StoredAsRct() ==> CountStored(tx, n, 0) == n
    ensures tx.RemovedAsRct() ==> CountRemoved(tx, n, 0) == n && (a != 0 ==> CountRemoved(tx, n, a) == 0)
    ensures CountRemoved(tx, n, a) <= n && CountStored(tx, n, a) <= n
  {
    if n > 0 {
      CountAllSame(tx, n - 1, a);
    }
  }

  lemma {:induction false} CountDiffers(tx: Tx, n: nat, i: nat)
    requires i < n <= |tx.vout| && tx.StoredAmount(i) != tx.RemovedAmount(i)
    ensures tx.StoredAsRct() ==> CountRemoved(tx, n, 0) < n
    ensures !tx.StoredAsRct() ==> CountStored(tx, n, tx.vout[i].amount) > 0
  {
    CountAllSame(tx, n - 1, 0);
    if i < n - 1 {
      CountDiffers(tx, n - 1, i);
    }
  }

  /** An output looked for elsewhere stays, so the table is not restored. */
  lemma NotUndone(o: Outputs, tx: Tx, hash: Hash, height: nat)
    requires tx.HasCommitments() && !tx.Restorable() && AddOutputs(o, tx, hash, height, |tx.vout|).Success?
    ensures var (added, indices) := AddOutputs(o, tx, hash, height, |tx.vout|).value;
            RemoveOutputs(added, tx, indices, |tx.vout|) != Success(o)
  {
    hide AddOutputs, RemoveOutputs, CountStored, CountRemoved;
    var n := |tx.vout|;
    var (added, indices) := AddOutputs(o, tx, hash, height, n).value;
    if RemoveOutputs(added, tx, indices, n).Success? {
      var a := MisplacedAmount(tx);
      AddOutputsLengths(o, tx, hash, height, n, a);
      RemoveOutputsLengths(added, tx, indices, n, a);
    }
  }

  /** Some list gets more outputs than are taken from it. */
  lemma MisplacedAmount(tx: Tx) returns (a: nat)
    requires !tx.Restorable()
    ensures CountStored(tx, |tx.vout|, a) > CountRemoved(tx, |tx.vout|, a)
  {
    hide CountStored, CountRemoved;
    var n := |tx.vout|;
    var i :| 0 <= i < n && tx.StoredAmount(i) != tx.RemovedAmount(i);
    a := if tx.StoredAsRct() then 0 else tx.vout[i].amount;
    CountAllSame(tx, n, a);
    CountDiffers(tx, n, i);
  }

  lemma {:induction false} RestorableCounts(tx: Tx, n: nat, a: nat)
    requires n <= |tx.vout| && tx.Restorable()
    ensures CountStored(tx, n, a) == CountRemoved(tx, n, a)
  {
    if n > 0 {
      RestorableCounts(tx, n - 1, a);
    }
  }

  // Two transactions that are not restorable, the tables they lead to, and one with a gap

  const FIRST := Tx(3, [Gen], [TxOut(5, Some(1))], 0, [7], 1)
  const SECOND := Tx(2, [Gen, ToKey(3)], [TxOut(5, Some(1))], 0, [], 2)
  const NOTHING := Outputs(map[], [])
  const FIRST_KEY := OutKey(0, 0, 1, 0, 0, None)
  const SECOND_KEY := OutKey(0, 1, 1, 0, 0, Some(ZeroCommit(5)))
  const ONE := Outputs(map[5 := [FIRST_KEY]], [OutTx(0, 1, 0)])
  const TWO := Outputs(map[5 := [FIRST_KEY], 0 := [SECOND_KEY]], [OutTx(0, 1, 0), OutTx(1, 2, 0)])
  const THREE := Outputs(map[0 := [SECOND_KEY]], [OutTx(1, 2, 0)])

  lemma Amounts()
    ensures FIRST.StoredAmount(0) == 5 && FIRST.RemovedAmount(0) == 0 && !FIRST.Restorable()
    ensures SECOND.StoredAmount(0) == 0 && SECOND.RemovedAmount(0) == 5 && !SECOND.Restorable()
    ensures FIRST.CommitmentOf(0) == Some(Committed(7)) && SECOND.CommitmentOf(0) == Some(ZeroCommit(5))
  {
    assert SECOND.vin[0] == Gen;
    assert FIRST.vin[0] == Gen;
  }

  lemma FirstAdded()
    ensures AddNext(NOTHING, FIRST, 1, 0, 0) == Success((ONE, 0))
  {
    Amounts();
    assert [] + [FIRST_KEY] == [FIRST_KEY];
    assert NOTHING.outputTxs + [OutTx(0, 1, 0)] == ONE.outputTxs;
  }

  lemma SecondAdded()
    ensures AddNext(ONE, SECOND, 2, 0, 0) == Success((TWO, 0))
  {
    Amounts();
    assert ONE.List(0) == [] && [] + [SECOND_KEY] == [SECOND_KEY];
    assert ONE.amounts[0 := [SECOND_KEY]] == TWO.amounts;
    assert ONE.outputTxs + [OutTx(1, 2, 0)] == TWO.outputTxs;
  }

  /** After a removal from the middle, numbering goes on from the last output. */
  lemma AddAfterGap()
    ensures AddNext(THREE, FIRST, 3, 0, 0).Success?
    ensures AddNext(THREE, FIRST, 3, 0, 0).value.0.outputTxs == [OutTx(1, 2, 0), OutTx(2, 3, 0)]
  {
    Amounts();
    assert THREE.outputTxs + [OutTx(2, 3, 0)] == [OutTx(1, 2, 0), OutTx(2, 3, 0)];
  }

  // One index per output, in order

  /**
   The list of the amount has, at this index, an entry for output i of the transaction that leads back to it. Outputs
   of a version 2 transaction with a gen input are in the list of amount 0, committed to by their public amount; any
   other output without an amount has its own commitment of the signature, and one with an amount has none.
   */
  ghost predicate Leads(o: Outputs, tx: Tx, hash: Hash, height: nat, i: nat, index: nat)
    requires i < |tx.vout|
  {
    var mined, out := Gen in tx.vin && tx.version == 2, tx.vout[i];
    var list := o.List(if mined then 0 else out.amount);
    && index < |list| && list[index].amountIndex == index
    && OutTx(list[index].outputId, hash, i) in o.outputTxs
    && out.key == Some(list[index].key) && list[index].unlockTime == tx.unlockTime && list[index].height == height
    && (mined ==> list[index].commitment == Some(ZeroCommit(out.amount)))
    && (!mined && out.amount == 0 ==> i < |tx.outPk| && list[index].commitment == Some(Committed(tx.outPk[i])))
    && (!mined && out.amount > 0 ==> list[index].commitment == None)
  }

  lemma NextLeads(o: Outputs, tx: Tx, hash: Hash, height: nat, i: nat)
    requires i < |tx.vout| && tx.HasCommitments() && AddNext(o, tx, hash, height, i).Success?
    ensures var (after, index) := AddNext(o, tx, hash, height, i).value; Leads(after, tx, hash, height, i, index)
  {}

  lemma NextKeepsLeads(o: Outputs, tx: Tx, hash: Hash, height: nat, i: nat, other: Tx, h: Hash, at: nat, k: nat,
                       index: nat)
    requires i < |tx.vout| && tx.HasCommitments() && AddNext(o, tx, hash, height, i).Success?
    requires k < |other.vout| && Leads(o, other, h, at, k, index)
    ensures Leads(AddNext(o, tx, hash, height, i).value.0, other, h, at, k, index)
  {}

  lemma {:induction false} IndicesLead(o: Outputs, tx: Tx, hash: Hash, height: nat, n: nat, i: nat)
    requires i < n <= |tx.vout| && tx.HasCommitments() && AddOutputs(o, tx, hash, height, n).Success?
    ensures var (added, indices) := AddOutputs(o, tx, hash, height, n).value;
            Leads(added, tx, hash, height, i, indices[i])
  {
    hide AddNext, Leads;
    var (before, indices) := AddOutputs(o, tx, hash, height, n - 1).value;
    NextLeads(before, tx, hash, height, n - 1);
    if i < n - 1 {
      IndicesLead(o, tx, hash, height, n - 1, i);
      NextKeepsLeads(before, tx, hash, height, n - 1, tx, hash, height, i, indices[i]);
    }
  }

  // Every table that adding and removing can lead to

  lemma {:induction false} AddOutputsKeepOrder(o: Outputs, tx: Tx, hash: Hash, height: nat, n: nat)
    requires n <= |tx.vout| && tx.HasCommitments() && o.IdsAscend() && AddOutputs(o, tx, hash, height, n).Success?
    ensures AddOutputs(o, tx, hash, height, n).value.0.IdsAscend()
  {
    hide AddOutput;
    if n > 0 {
      AddOutputsKeepOrder(o, tx, hash, height, n - 1);
      AddKeepsOrder(AddOutputs(o, tx, hash, height, n - 1).value.0, hash, n - 1,
                    tx.vout[n - 1].(amount := tx.StoredAmount(n - 1)), tx.unlockTime, height, tx.CommitmentOf(n - 1));
    }
  }

  lemma {:induction false} RemoveOutputsKeepOrder(o: Outputs, tx: Tx, indices: seq<nat>, n: nat)
    requires n <= |tx.vout| && n <= |indices| && o.Valid() && o.IdsAscend() && RemoveOutputs(o, tx, indices, n).Success?
    ensures RemoveOutputs(o, tx, indices, n).value.Valid() && RemoveOutputs(o, tx, indices, n).value.IdsAscend()
    decreases n
  {
    hide RemoveOutput;
    if n > 0 {
      RemoveKeepsOrder(o, tx.RemovedAmount(n - 1), indices[n - 1]);
      RemoveOutputsKeepOrder(RemoveOutput(o, tx.RemovedAmount(n - 1), indices[n - 1]).value, tx, indices, n - 1);
    }
  }
}
