/** Transactions of one piece do not move the totals of another. */
module Conservation {
  import opened Scale
  import opened Types
  import opened Typing
  import opened UtxoSet
  import opened Ledger
  import opened Sums
  import opened Wardrobe

  /** `f` measures only utxos of one type. */
  ghost predicate Measures<V(!new)>(f: Output<V> -> int, id: TypeId) {
    forall o: Output<V> :: o.payload.typeId != id ==> f(o) == 0
  }

  lemma ForeignTotal<V(!new)>(rt: Runtime<V, Checker>, host: Host, st: State<V>, t: Transaction<V, Checker>,
                              f: Output<V> -> int, id: TypeId)
    requires Dresses(rt, host) && Accepted(rt, st, t)
    requires Measures(f, id) && OwnType(Leaf(t.checker)) != id
    ensures Total(Apply(rt, st, t).0.utxos, f) == Total(st.utxos, f)
  {
    AcceptedKeepsToOwnType(rt, host, st, t);
    TotalAfter(rt, st, t, f);
    SumsVanish(st.utxos, t.inputs, f);
    SumSeqVanishes(t.outputs, f);
  }

  /** A utxo of one type is not consumed by transactions of another. */
  lemma ForeignKeeps<V(!new)>(rt: Runtime<V, Checker>, host: Host, st: State<V>, t: Transaction<V, Checker>,
                              r: OutputRef)
    requires Dresses(rt, host) && Accepted(rt, st, t)
    requires r in st.utxos && st.utxos[r].payload.typeId != OwnType(Leaf(t.checker))
    ensures r !in InputRefs(t.inputs)
    ensures r in Apply(rt, st, t).0.utxos && Apply(rt, st, t).0.utxos[r] == st.utxos[r]
  {
    AcceptedKeepsToOwnType(rt, host, st, t);
    AcceptedIff(rt, st, t);
    AfterContents(rt, st, t, r);
    ListedBefore(t.inputs, r);
  }

  /** A utxo that appeared was created by the transaction, with the type of its piece. */
  lemma NewIsOwn<V(!new)>(rt: Runtime<V, Checker>, host: Host, st: State<V>, t: Transaction<V, Checker>, r: OutputRef)
    returns (i: nat)
    requires Dresses(rt, host) && Accepted(rt, st, t)
    requires r in Apply(rt, st, t).0.utxos && r !in st.utxos
    ensures i < |t.outputs| && r == OutRef(rt, t, i) && Apply(rt, st, t).0.utxos[r] == t.outputs[i]
    ensures t.outputs[i].payload.typeId == OwnType(Leaf(t.checker))
  {
    AcceptedKeepsToOwnType(rt, host, st, t);
    AcceptedIff(rt, st, t);
    AfterContents(rt, st, t, r);
    CreatedContents(rt, t, r);
    i := r.index;
  }

  /** A utxo that stayed is the one that was there. */
  lemma OldStays<V, C>(rt: Runtime<V, C>, st: State<V>, t: Transaction<V, C>, r: OutputRef)
    requires Accepted(rt, st, t) && r in st.utxos
    ensures r in Apply(rt, st, t).0.utxos <==> r !in InputRefs(t.inputs)
    ensures r in Apply(rt, st, t).0.utxos ==> Apply(rt, st, t).0.utxos[r] == st.utxos[r]
  {
    AcceptedIff(rt, st, t);
    AfterContents(rt, st, t, r);
  }
}
