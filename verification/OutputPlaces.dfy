/**
 Removing outputs from arbitrary places of the lists. Removing all outputs that were added restores the table exactly if
 the places they are removed from are the places they were stored at, in any order.
 */
module OutputPlaces {
  import opened ChainData
  import opened Options
  import opened OutputTable
  import opened Sequences

  /** An index in the list of an amount. */
  datatype Place = Place(amount: nat, index: nat)

  /** Removes the outputs at the places, the last first. */
  function RemoveAll(o: Outputs, places: seq<Place>): Result<Outputs>
    decreases |places|
  {
    if |places| == 0 then Success(o)
    else
      var n := |places| - 1;
      match RemoveOutput(o, places[n].amount, places[n].index) {
        case Failure(e) => Failure(e)
        case Success(rest) => RemoveAll(rest, places[..n])
      }
  }

  lemma {:induction false} RemoveAllConcat(o: Outputs, a: seq<Place>, b: seq<Place>)
    ensures RemoveAll(o, a + b) == match RemoveAll(o, b) {
              case Failure(e) => Failure(e)
              case Success(rest) => RemoveAll(rest, a)
            }
    decreases |b|
  {
    hide RemoveOutput;
    if |b| == 0 {
      assert a + b == a;
    } else {
      var n := |b| - 1;
      assert (a + b)[..|a| + n] == a + b[..n];
      var first := RemoveOutput(o, b[n].amount, b[n].index);
      if first.Success? {
        RemoveAllConcat(first.value, a, b[..n]);
      }
    }
  }

  // Counting the entries at a place

  function Occurs(list: seq<OutKey>, index: nat): nat {
    if |list| == 0 then 0
    else Occurs(list[..|list| - 1], index) + if list[|list| - 1].amountIndex == index then 1 else 0
  }

  function CountAt(o: Outputs, x: Place): nat {
    Occurs(o.List(x.amount), x.index)
  }

  lemma {:induction false} OccursConcat(a: seq<OutKey>, b: seq<OutKey>, index: nat)
    ensures Occurs(a + b, index) == Occurs(a, index) + Occurs(b, index)
  {
    if |b| == 0 {
      assert a + b == a;
    } else {
      var n := |b| - 1;
      assert (a + b)[..|a| + n] == a + b[..n];
      OccursConcat(a, b[..n], index);
    }
  }

  lemma OccursWithout(list: seq<OutKey>, p: nat, index: nat)
    requires p < |list|
    ensures Occurs(Without(list, p), index) == Occurs(list, index) - if list[p].amountIndex == index then 1 else 0
  {
    hide Occurs;
    var k := list[p];
    assert list == list[..p] + ([k] + list[p + 1..]);
    OccursConcat(list[..p], [k] + list[p + 1..], index);
    OccursConcat([k], list[p + 1..], index);
    OccursConcat(list[..p], list[p + 1..], index);
    OccursOne(k, index);
  }

  lemma OccursOne(k: OutKey, index: nat)
    ensures Occurs([k], index) == if k.amountIndex == index then 1 else 0
  {
    assert [k][..0] == [];
  }

  lemma RemoveCounts(o: Outputs, amount: nat, index: nat, x: Place)
    requires RemoveOutput(o, amount, index).Success?
    ensures var after := RemoveOutput(o, amount, index).value;
            CountAt(after, x) == CountAt(o, x) - if x == Place(amount, index) then 1 else 0
  {
    hide Occurs, Find, FindTx;
    var list := o.List(amount);
    OccursWithout(list, Find(list, index), x.index);
    OccursNone(x.index);
  }

  lemma OccursNone(index: nat)
    ensures Occurs([], index) == 0
  {}

  lemma {:induction false} RemoveAllCounts(o: Outputs, places: seq<Place>, x: Place)
    requires RemoveAll(o, places).Success?
    ensures CountAt(RemoveAll(o, places).value, x) == CountAt(o, x) - multiset(places)[x]
    decreases |places|
  {
    hide RemoveOutput, CountAt;
    if |places| > 0 {
      var n := |places| - 1;
      RemoveCounts(o, places[n].amount, places[n].index, x);
      RemoveAllCounts(RemoveOutput(o, places[n].amount, places[n].index).value, places[..n], x);
      assert places == places[..n] + [places[n]];
    }
  }

  // Tables that have grown from another one

  ghost predicate IsNew(base: Outputs, o: Outputs, c: nat, p: int) {
    |base.List(c)| <= p < |o.List(c)|
  }

  ghost predicate HasNewTx(base: Outputs, o: Outputs, id: nat) {
    exists q | |base.outputTxs| <= q < |o.outputTxs| :: o.outputTxs[q].outputId == id
  }

  /** Lists and ids go on from those of the base. */
  ghost predicate Continues(base: Outputs, o: Outputs) {
    && base.Valid() && o.Valid() && base.IdsAscend() && o.IdsAscend()
    && base.outputTxs <= o.outputTxs
    && forall c: nat :: base.List(c) <= o.List(c)
  }

  /** New entries have higher indices than those of the base, and new ids. */
  ghost predicate NewEntries(base: Outputs, o: Outputs) {
    forall c: nat, p | IsNew(base, o, c, p) ::
      AppendsToList(o.List(c)[p].amountIndex, base.List(c)) && HasNewTx(base, o, o.List(c)[p].outputId)
  }

  /** New entries have different ids. */
  ghost predicate OwnIds(base: Outputs, o: Outputs) {
    forall c: nat, p, d: nat, q | IsNew(base, o, c, p) && IsNew(base, o, d, q) ::
      o.List(c)[p].outputId == o.List(d)[q].outputId ==> c == d && p == q
  }

  ghost predicate Grown(base: Outputs, o: Outputs) {
    Continues(base, o) && NewEntries(base, o) && OwnIds(base, o)
  }

  lemma GrownFromItself(o: Outputs)
    requires o.Valid() && o.IdsAscend()
    ensures Grown(o, o)
  {}

  lemma NewIdBelow(base: Outputs, o: Outputs, id: nat)
    requires o.IdsAscend() && HasNewTx(base, o, id)
    ensures id < o.NumOutputs()
  {
    var q :| |base.outputTxs| <= q < |o.outputTxs| && o.outputTxs[q].outputId == id;
    if q < |o.outputTxs| - 1 {
      assert o.outputTxs[q].outputId < o.outputTxs[|o.outputTxs| - 1].outputId;
    }
  }

  /** One more entry at the end of a list. */
  function Appended(o: Outputs, a: nat, k: OutKey, t: OutTx): Outputs {
    Outputs(o.amounts[a := o.List(a) + [k]], o.outputTxs + [t])
  }

  lemma AppendedList(o: Outputs, a: nat, k: OutKey, t: OutTx, c: nat)
    ensures Appended(o, a, k, t).List(c) == if c == a then o.List(a) + [k] else o.List(c)
  {}

  lemma AppendedHasTx(base: Outputs, o: Outputs, a: nat, k: OutKey, t: OutTx, id: nat)
    requires |base.outputTxs| <= |o.outputTxs|
    ensures HasNewTx(base, o, id) || id == t.outputId ==> HasNewTx(base, Appended(o, a, k, t), id)
  {
    var after := Appended(o, a, k, t);
    if HasNewTx(base, o, id) {
      var q :| |base.outputTxs| <= q < |o.outputTxs| && o.outputTxs[q].outputId == id;
      assert after.outputTxs[q].outputId == id;
    } else if id == t.outputId {
      assert after.outputTxs[|o.outputTxs|].outputId == id;
    }
  }

  lemma AppendKeepsGrown(base: Outputs, o: Outputs, a: nat, k: OutKey, t: OutTx)
    requires Grown(base, o) && k.outputId == t.outputId == o.NumOutputs() && AppendsToList(k.amountIndex, o.List(a))
    ensures Grown(base, Appended(o, a, k, t))
  {
    hide NewEntries, OwnIds, Continues, Appended, AppendsToList;
    AppendKeepsContinues(base, o, a, k, t);
    AppendKeepsNewEntries(base, o, a, k, t);
    AppendKeepsOwnIds(base, o, a, k, t);
  }

  lemma AppendKeepsNewEntries(base: Outputs, o: Outputs, a: nat, k: OutKey, t: OutTx)
    requires Grown(base, o) && k.outputId == t.outputId && AppendsToList(k.amountIndex, o.List(a))
    ensures NewEntries(base, Appended(o, a, k, t))
  {
    hide HasNewTx, AppendsToList, Appended, OwnIds;
    var after := Appended(o, a, k, t);
    GrownList(base, o, a);
    AppendsToPrefix(k.amountIndex, base.List(a), o.List(a));
    forall c: nat, p | IsNew(base, after, c, p)
      ensures AppendsToList(after.List(c)[p].amountIndex, base.List(c))
      ensures HasNewTx(base, after, after.List(c)[p].outputId)
    {
      AppendedList(o, a, k, t, c);
      AppendedHasTx(base, o, a, k, t, after.List(c)[p].outputId);
      if p < |o.List(c)| {
        assert IsNew(base, o, c, p);
      }
    }
  }

  lemma AppendKeepsOwnIds(base: Outputs, o: Outputs, a: nat, k: OutKey, t: OutTx)
    requires Grown(base, o) && k.outputId == o.NumOutputs()
    ensures OwnIds(base, Appended(o, a, k, t))
  {
    hide NewEntries, Continues, Appended;
    var after := Appended(o, a, k, t);
    forall c: nat, p, d: nat, q | IsNew(base, after, c, p) && IsNew(base, after, d, q)
      ensures after.List(c)[p].outputId == after.List(d)[q].outputId ==> c == d && p == q
    {
      AppendedList(o, a, k, t, c);
      AppendedList(o, a, k, t, d);
      OldIdsBelow(base, o, c, p);
      OldIdsBelow(base, o, d, q);
      if p < |o.List(c)| && q < |o.List(d)| {
        assert IsNew(base, o, c, p) && IsNew(base, o, d, q);
      }
    }
  }

  lemma OldIdsBelow(base: Outputs, o: Outputs, c: nat, p: int)
    requires Grown(base, o)
    ensures IsNew(base, o, c, p) ==> o.List(c)[p].outputId < o.NumOutputs()
  {
    if IsNew(base, o, c, p) {
      NewIdBelow(base, o, o.List(c)[p].outputId);
    }
  }

  lemma AppendsToPrefix(index: nat, short: seq<OutKey>, long: seq<OutKey>)
    requires short <= long && AppendsToList(index, long)
    ensures AppendsToList(index, short)
  {}

  lemma AppendKeepsContinues(base: Outputs, o: Outputs, a: nat, k: OutKey, t: OutTx)
    requires Continues(base, o) && t.outputId == o.NumOutputs()
    ensures Continues(base, Appended(o, a, k, t))
  {
    var after := Appended(o, a, k, t);
    forall c: nat
      ensures base.List(c) <= after.List(c)
    {
      AppendedList(o, a, k, t, c);
      assert base.List(c) <= o.List(c);
    }
  }

  // Taking new entries away again

  /** Without one entry of a list and its id. */
  function Taken(o: Outputs, a: nat, p: nat, q: nat): Outputs
    requires p < |o.List(a)| && q < |o.outputTxs|
  {
    var rest := Without(o.List(a), p);
    Outputs(if rest == [] then o.amounts - {a} else o.amounts[a := rest], Without(o.outputTxs, q))
  }

  lemma TakenList(o: Outputs, a: nat, p: nat, q: nat, c: nat)
    requires p < |o.List(a)| && q < |o.outputTxs|
    ensures Taken(o, a, p, q).List(c) == if c == a then Without(o.List(a), p) else o.List(c)
  {}

  lemma WithoutAt<T>(s: seq<T>, p: nat, i: nat)
    requires p < |s| && i < |s| - 1
    ensures |Without(s, p)| == |s| - 1 && Without(s, p)[i] == s[if i < p then i else i + 1]
  {}

  lemma WithoutPrefix<T>(base: seq<T>, s: seq<T>, p: nat)
    requires base <= s && |base| <= p < |s|
    ensures base <= Without(s, p)
  {}

  lemma TakeKeepsContinues(base: Outputs, o: Outputs, a: nat, p: nat, q: nat)
    requires Continues(base, o) && IsNew(base, o, a, p) && |base.outputTxs| <= q < |o.outputTxs|
    ensures Continues(base, Taken(o, a, p, q))
  {
    hide Without;
    var after := Taken(o, a, p, q);
    WithoutPrefix(base.outputTxs, o.outputTxs, q);
    WithoutAscends(o, q);
    forall c: nat
      ensures base.List(c) <= after.List(c)
    {
      TakenList(o, a, p, q, c);
      assert base.List(c) <= o.List(c);
      if c == a {
        WithoutPrefix(base.List(a), o.List(a), p);
      }
    }
  }

  lemma WithoutAscends(o: Outputs, q: nat)
    requires o.IdsAscend() && q < |o.outputTxs|
    ensures var txs := Without(o.outputTxs, q);
            forall i, j | 0 <= i < j < |txs| :: txs[i].outputId < txs[j].outputId
  {}

  /** Where an entry was before another one was taken away. */
  function Origin(a: nat, p: nat, c: nat, i: nat): nat {
    if c == a && i >= p then i + 1 else i
  }

  lemma TakenEntry(base: Outputs, o: Outputs, a: nat, p: nat, q: nat, c: nat, i: nat)
    requires Continues(base, o) && IsNew(base, o, a, p) && q < |o.outputTxs| && IsNew(base, Taken(o, a, p, q), c, i)
    ensures IsNew(base, o, c, Origin(a, p, c, i)) && !(c == a && Origin(a, p, c, i) == p)
    ensures Taken(o, a, p, q).List(c)[i] == o.List(c)[Origin(a, p, c, i)]
  {
    hide Without, Taken;
    TakenList(o, a, p, q, c);
    assert base.List(c) <= o.List(c);
    if c == a {
      WithoutLength(o.List(a), p);
      WithoutAt(o.List(a), p, i);
    }
  }

  lemma WithoutLength<T>(s: seq<T>, p: nat)
    requires p < |s|
    ensures |Without(s, p)| == |s| - 1
  {}

  lemma TakenHasTx(base: Outputs, o: Outputs, a: nat, p: nat, q: nat, id: nat)
    requires p < |o.List(a)| && |base.outputTxs| <= q < |o.outputTxs|
    requires HasNewTx(base, o, id) && o.outputTxs[q].outputId != id
    ensures HasNewTx(base, Taken(o, a, p, q), id)
  {
    var r :| |base.outputTxs| <= r < |o.outputTxs| && o.outputTxs[r].outputId == id;
    var i := if r < q then r else r - 1;
    WithoutAt(o.outputTxs, q, i);
    assert Taken(o, a, p, q).outputTxs[i].outputId == id;
  }

  lemma TakeKeepsGrown(base: Outputs, o: Outputs, a: nat, p: nat, q: nat)
    requires Grown(base, o) && IsNew(base, o, a, p) && |base.outputTxs| <= q < |o.outputTxs|
    requires o.outputTxs[q].outputId == o.List(a)[p].outputId
    ensures Grown(base, Taken(o, a, p, q))
  {
    hide HasNewTx, AppendsToList, Taken, Origin, Continues;
    var after := Taken(o, a, p, q);
    TakeKeepsContinues(base, o, a, p, q);
    forall c: nat, i | IsNew(base, after, c, i)
      ensures AppendsToList(after.List(c)[i].amountIndex, base.List(c))
              && HasNewTx(base, after, after.List(c)[i].outputId)
    {
      TakenEntry(base, o, a, p, q, c, i);
      TakenHasTx(base, o, a, p, q, after.List(c)[i].outputId);
    }
    forall c: nat, i, d: nat, j | IsNew(base, after, c, i) && IsNew(base, after, d, j)
      ensures after.List(c)[i].outputId == after.List(d)[j].outputId ==> c == d && i == j
    {
      TakenEntry(base, o, a, p, q, c, i);
      TakenEntry(base, o, a, p, q, d, j);
      OriginUnique(a, p, c, i, j);
    }
  }

  lemma OriginUnique(a: nat, p: nat, c: nat, i: nat, j: nat)
    ensures Origin(a, p, c, i) == Origin(a, p, c, j) ==> i == j
  {}

  // Finding them

  lemma {:induction false} FindNew(list: seq<OutKey>, n: nat, index: nat)
    requires n <= |list| && Occurs(list[n..], index) > 0
    ensures Find(list, index) >= n
  {
    if |list| > n {
      var last := |list| - 1;
      assert list[n..][..last - n] == list[..last][n..];
      if list[last].amountIndex != index {
        FindNew(list[..last], n, index);
      }
    }
  }

  lemma {:induction false} FindTxAt(txs: seq<OutTx>, q: nat)
    requires q < |txs| && forall i, j | 0 <= i < j < |txs| :: txs[i].outputId < txs[j].outputId
    ensures FindTx(txs, txs[q].outputId) == q
  {
    if q < |txs| - 1 {
      FindTxAt(txs[..|txs| - 1], q);
    }
  }

  /** The entries that are new at a place. */
  function NewAt(base: Outputs, o: Outputs, x: Place): nat
    requires |base.List(x.amount)| <= |o.List(x.amount)|
  {
    Occurs(o.List(x.amount)[|base.List(x.amount)|..], x.index)
  }

  /** A new entry is found, and taking it away leaves the others. */
  lemma RemoveNew(base: Outputs, o: Outputs, x: Place)
    requires Grown(base, o) && |base.List(x.amount)| <= |o.List(x.amount)| && NewAt(base, o, x) > 0
    ensures RemoveOutput(o, x.amount, x.index).Success?
    ensures var after := RemoveOutput(o, x.amount, x.index).value;
            Grown(base, after) && |after.outputTxs| == |o.outputTxs| - 1
  {
    hide Find, FindTx, Occurs, Without, Continues, OwnIds, AppendsToList;
    var list := o.List(x.amount);
    FindNew(list, |base.List(x.amount)|, x.index);
    var p: nat := Find(list, x.index);
    assert IsNew(base, o, x.amount, p);
    var q :| |base.outputTxs| <= q < |o.outputTxs| && o.outputTxs[q].outputId == list[p].outputId;
    GrownAscends(base, o);
    FindTxAt(o.outputTxs, q);
    WithoutLength(o.outputTxs, q);
    TakeKeepsGrown(base, o, x.amount, p, q);
  }

  lemma GrownAscends(base: Outputs, o: Outputs)
    requires Grown(base, o)
    ensures o.IdsAscend()
  {}

  lemma GrownList(base: Outputs, o: Outputs, c: nat)
    requires Grown(base, o)
    ensures base.List(c) <= o.List(c)
  {}

  lemma NewAtIs(base: Outputs, o: Outputs, x: Place)
    requires Grown(base, o)
    ensures |base.List(x.amount)| <= |o.List(x.amount)| && NewAt(base, o, x) == CountAt(o, x) - CountAt(base, x)
  {
    hide Occurs, Grown;
    GrownList(base, o, x.amount);
    var first, list := base.List(x.amount), o.List(x.amount);
    assert list == first + list[|first|..];
    OccursConcat(first, list[|first|..], x.index);
  }

  lemma {:induction false} NoOccurrences(list: seq<OutKey>)
    requires forall index: nat :: Occurs(list, index) == 0
    ensures list == []
  {
    if |list| > 0 {
      assert Occurs(list, list[|list| - 1].amountIndex) > 0;
    }
  }

  /** Without new entries the table is the base. */
  lemma NothingNew(base: Outputs, o: Outputs)
    requires Grown(base, o) && |o.outputTxs| == |base.outputTxs|
    requires forall x: Place :: CountAt(o, x) == CountAt(base, x)
    ensures o == base
  {
    hide CountAt, NewAt;
    forall c: nat
      ensures o.List(c) == base.List(c)
    {
      SameList(base, o, c);
    }
    SameLists(base, o);
  }

  lemma SameList(base: Outputs, o: Outputs, c: nat)
    requires Grown(base, o) && forall x: Place :: CountAt(o, x) == CountAt(base, x)
    ensures o.List(c) == base.List(c)
  {
    hide Grown;
    GrownList(base, o, c);
    var rest := o.List(c)[|base.List(c)|..];
    forall index: nat
      ensures Occurs(rest, index) == 0
    {
      hide Occurs;
      NewAtIs(base, o, Place(c, index));
      assert CountAt(o, Place(c, index)) == CountAt(base, Place(c, index));
    }
    NoOccurrences(rest);
  }

  lemma SameLists(base: Outputs, o: Outputs)
    requires base.Valid() && o.Valid() && (forall c: nat :: o.List(c) == base.List(c)) && o.outputTxs == base.outputTxs
    ensures o == base
  {
    forall c: nat
      ensures c in o.amounts <==> c in base.amounts
      ensures c in o.amounts ==> o.amounts[c] == base.amounts[c]
    {
      assert o.List(c) == base.List(c);
    }
    assert o.amounts == base.amounts;
  }

  /** Removing from exactly the places of the new entries restores the base. */
  lemma {:induction false} RemoveAllNew(base: Outputs, o: Outputs, places: seq<Place>)
    requires Grown(base, o) && |o.outputTxs| == |base.outputTxs| + |places|
    requires forall x: Place :: CountAt(o, x) == CountAt(base, x) + multiset(places)[x]
    ensures RemoveAll(o, places) == Success(base)
    decreases |places|
  {
    hide Grown, CountAt, RemoveOutput;
    if |places| == 0 {
      NothingNew(base, o);
    } else {
      var n := |places| - 1;
      var x := places[n];
      assert places == places[..n] + [x];
      NewAtIs(base, o, x);
      RemoveNew(base, o, x);
      var after := RemoveOutput(o, x.amount, x.index).value;
      forall y: Place
        ensures CountAt(after, y) == CountAt(base, y) + multiset(places[..n])[y]
      {
        RemoveCounts(o, x.amount, x.index, y);
      }
      RemoveAllNew(base, after, places[..n]);
    }
  }

  // The places of a sequence of outputs

  /** The amounts an output is stored under and removed from. */
  datatype Slot = Slot(stored: nat, removed: nat)

  function CountSlots(slots: seq<Slot>, a: nat): nat {
    if |slots| == 0 then 0
    else CountSlots(slots[..|slots| - 1], a) + if slots[|slots| - 1].stored == a then 1 else 0
  }

  /** The index the next output gets: the length of the list, counting the outputs before. */
  function NextIndex(o: Outputs, slots: seq<Slot>, a: nat): nat {
    |o.List(a)| + CountSlots(slots, a)
  }

  /** The places the outputs are stored at. */
  function StoredAt(o: Outputs, slots: seq<Slot>): (places: seq<Place>)
    ensures |places| == |slots|
  {
    if |slots| == 0 then []
    else
      var n := |slots| - 1;
      StoredAt(o, slots[..n]) + [Place(slots[n].stored, NextIndex(o, slots[..n], slots[n].stored))]
  }

  /** The places they are removed from: the same indices, under the other amounts. */
  function RemovedFrom(o: Outputs, slots: seq<Slot>): (places: seq<Place>)
    ensures |places| == |slots|
  {
    if |slots| == 0 then []
    else
      var n := |slots| - 1;
      RemovedFrom(o, slots[..n]) + [Place(slots[n].removed, NextIndex(o, slots[..n], slots[n].stored))]
  }

  lemma PlacesNext(o: Outputs, slots: seq<Slot>, x: Slot)
    ensures StoredAt(o, slots + [x]) == StoredAt(o, slots) + [Place(x.stored, NextIndex(o, slots, x.stored))]
    ensures RemovedFrom(o, slots + [x]) == RemovedFrom(o, slots) + [Place(x.removed, NextIndex(o, slots, x.stored))]
    ensures forall a: nat :: CountSlots(slots + [x], a) == CountSlots(slots, a) + if x.stored == a then 1 else 0
  {
    assert (slots + [x])[..|slots|] == slots;
  }

  /** The table holds the outputs of the slots, on top of the base. */
  ghost predicate Filled(base: Outputs, o: Outputs, slots: seq<Slot>) {
    && Grown(base, o) && |o.outputTxs| == |base.outputTxs| + |slots|
    && (forall a: nat :: |o.List(a)| == NextIndex(base, slots, a))
    && forall x: Place :: CountAt(o, x) == CountAt(base, x) + multiset(StoredAt(base, slots))[x]
  }

  lemma FilledStarts(o: Outputs)
    requires o.Valid() && o.IdsAscend()
    ensures Filled(o, o, [])
  {
    GrownFromItself(o);
  }

  lemma AppendedCounts(o: Outputs, a: nat, k: OutKey, t: OutTx, x: Place)
    ensures CountAt(Appended(o, a, k, t), x) == CountAt(o, x) + if x == Place(a, k.amountIndex) then 1 else 0
  {
    hide Occurs, Appended;
    AppendedList(o, a, k, t, x.amount);
    OccursConcat(o.List(a), [k], x.index);
    OccursOne(k, x.index);
  }

  function SlotOf(tx: Tx, i: nat): Slot
    requires i < |tx.vout|
  {
    Slot(tx.StoredAmount(i), tx.RemovedAmount(i))
  }

  /** Adding an output is appending an entry whose index is the length of the list. */
  lemma AddNextAppends(o: Outputs, tx: Tx, hash: Hash, height: nat, i: nat) returns (k: OutKey)
    requires i < |tx.vout| && tx.HasCommitments() && AddNext(o, tx, hash, height, i).Success?
    ensures var a := tx.StoredAmount(i); var id := o.NumOutputs();
            && AddNext(o, tx, hash, height, i) == Success((Appended(o, a, k, OutTx(id, hash, i)), |o.List(a)|))
            && k.outputId == id && k.amountIndex == |o.List(a)| && AppendsToList(k.amountIndex, o.List(a))
  {
    var out := tx.vout[i].(amount := tx.StoredAmount(i));
    k := OutKey(|o.List(out.amount)|, o.NumOutputs(), out.key.value, tx.unlockTime, height,
                if out.amount == 0 then tx.CommitmentOf(i) else None);
  }

  lemma AddNextFills(base: Outputs, o: Outputs, slots: seq<Slot>, tx: Tx, hash: Hash, height: nat, i: nat)
    requires Filled(base, o, slots)
    requires i < |tx.vout| && tx.HasCommitments() && AddNext(o, tx, hash, height, i).Success?
    ensures var (after, index) := AddNext(o, tx, hash, height, i).value;
            && Filled(base, after, slots + [SlotOf(tx, i)])
            && index == NextIndex(base, slots, tx.StoredAmount(i))
  {
    hide AddNext, Grown, CountAt, Appended, AppendsToList;
    var k := AddNextAppends(o, tx, hash, height, i);
    var a, t := tx.StoredAmount(i), OutTx(o.NumOutputs(), hash, i);
    var after := Appended(o, a, k, t);
    AppendKeepsGrown(base, o, a, k, t);
    PlacesNext(base, slots, SlotOf(tx, i));
    forall c: nat
      ensures |after.List(c)| == NextIndex(base, slots + [SlotOf(tx, i)], c)
    {
      AppendedList(o, a, k, t, c);
      assert |o.List(c)| == NextIndex(base, slots, c);
    }
    forall x: Place
      ensures CountAt(after, x) == CountAt(base, x) + multiset(StoredAt(base, slots + [SlotOf(tx, i)]))[x]
    {
      AppendedCounts(o, a, k, t, x);
      assert CountAt(o, x) == CountAt(base, x) + multiset(StoredAt(base, slots))[x];
    }
    AppendedLength(o, a, k, t);
  }

  lemma AppendedLength(o: Outputs, a: nat, k: OutKey, t: OutTx)
    ensures |Appended(o, a, k, t).outputTxs| == |o.outputTxs| + 1
  {}

  function SlotsOf(tx: Tx, n: nat): (slots: seq<Slot>)
    requires n <= |tx.vout|
    ensures |slots| == n
  {
    if n == 0 then [] else SlotsOf(tx, n - 1) + [SlotOf(tx, n - 1)]
  }

  /** The places remove_tx_outputs looks at, from the stored indices. */
  function LookedAt(tx: Tx, indices: seq<nat>, n: nat): seq<Place>
    requires n <= |tx.vout| && n <= |indices|
  {
    if n == 0 then [] else LookedAt(tx, indices, n - 1) + [Place(tx.RemovedAmount(n - 1), indices[n - 1])]
  }

  lemma {:induction false} LookedAtPrefix(tx: Tx, a: seq<nat>, b: seq<nat>, n: nat)
    requires n <= |tx.vout| && n <= |a| <= |b| && a == b[..|a|]
    ensures LookedAt(tx, a, n) == LookedAt(tx, b, n)
  {
    if n > 0 {
      LookedAtPrefix(tx, a, b, n - 1);
    }
  }

  lemma {:induction false} RemoveOutputsLooks(o: Outputs, tx: Tx, indices: seq<nat>, n: nat)
    requires n <= |tx.vout| && n <= |indices|
    ensures RemoveOutputs(o, tx, indices, n) == RemoveAll(o, LookedAt(tx, indices, n))
    decreases n
  {
    hide RemoveOutput;
    if n > 0 {
      var places := LookedAt(tx, indices, n);
      assert places[..|places| - 1] == LookedAt(tx, indices, n - 1);
      var first := RemoveOutput(o, tx.RemovedAmount(n - 1), indices[n - 1]);
      if first.Success? {
        RemoveOutputsLooks(first.value, tx, indices, n - 1);
      }
    }
  }

  /** Adding the outputs of a transaction fills its slots, and it will look for them at the places of these slots. */
  lemma {:induction false} AddOutputsFill(base: Outputs, o: Outputs, slots: seq<Slot>, tx: Tx, hash: Hash,
                                          height: nat, n: nat)
    requires Filled(base, o, slots)
    requires n <= |tx.vout| && tx.HasCommitments() && AddOutputs(o, tx, hash, height, n).Success?
    ensures var (added, indices) := AddOutputs(o, tx, hash, height, n).value;
            && Filled(base, added, slots + SlotsOf(tx, n))
            && RemovedFrom(base, slots + SlotsOf(tx, n)) == RemovedFrom(base, slots) + LookedAt(tx, indices, n)
  {
    hide AddNext, Filled, NextIndex;
    if n == 0 {
      assert slots + SlotsOf(tx, 0) == slots;
      assert RemovedFrom(base, slots) + [] == RemovedFrom(base, slots);
    } else {
      var (before, indices) := AddOutputs(o, tx, hash, height, n - 1).value;
      var mid, x := slots + SlotsOf(tx, n - 1), SlotOf(tx, n - 1);
      AddOutputsFill(base, o, slots, tx, hash, height, n - 1);
      AddNextFills(base, before, mid, tx, hash, height, n - 1);
      PlacesNext(base, mid, x);
      assert slots + SlotsOf(tx, n) == mid + [x];
      var all := AddOutputs(o, tx, hash, height, n).value.1;
      LookedAtPrefix(tx, indices, all, n - 1);
      AppendAssociates(RemovedFrom(base, slots), LookedAt(tx, indices, n - 1), [Place(x.removed, all[n - 1])]);
    }
  }

  /** Removing all outputs again restores the base exactly if, in some order, they are looked for where they are. */
  lemma RestoredIff(base: Outputs, o: Outputs, slots: seq<Slot>)
    requires Filled(base, o, slots)
    ensures RemoveAll(o, RemovedFrom(base, slots)) == Success(base) <==>
            multiset(StoredAt(base, slots)) == multiset(RemovedFrom(base, slots))
  {
    hide Grown, CountAt, RemoveAll, StoredAt, RemovedFrom;
    var stored, removed := StoredAt(base, slots), RemovedFrom(base, slots);
    if RemoveAll(o, removed) == Success(base) {
      forall x: Place
        ensures multiset(stored)[x] == multiset(removed)[x]
      {
        RemoveAllCounts(o, removed, x);
        assert CountAt(o, x) == CountAt(base, x) + multiset(stored)[x];
      }
      assert multiset(stored) == multiset(removed);
    }
    if multiset(stored) == multiset(removed) {
      RemoveAllNew(base, o, removed);
    }
  }
}
