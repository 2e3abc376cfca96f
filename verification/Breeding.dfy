/** Kitties over whole runs: breeding uses up a resource that nothing replenishes. */
module Breeding {
  import opened Scale
  import opened Types
  import opened Typing
  import opened UtxoSet
  import opened Ledger
  import opened Sums
  import opened Wardrobe
  import opened Conservation
  import Kitties

  predicate IsKitty<V>(o: Output<V>) { Kitties.IsKitty(o.payload) }

  predicate IsReady<V>(o: Output<V>) { Kitties.IsReady(o.payload) }

  function CountKitty<V>(): Output<V> -> int { (o: Output<V>) => if IsKitty(o) then 1 else 0 }

  function CountReady<V>(): Output<V> -> int { (o: Output<V>) => if IsReady(o) then 1 else 0 }

  /** The number of kitties. */
  ghost function Population<V>(u: Utxos<V>): int { Total(u, CountKitty()) }

  /** The number of kitties that are ready to breed. */
  ghost function ReadyOnes<V>(u: Utxos<V>): int { Total(u, CountReady()) }

  predicate IsBreeding<V>(e: Event<V, Checker>) {
    e.Applied? && Leaf(e.tx.checker) == FreeKitty
  }

  function Breedings<V>(run: seq<Event<V, Checker>>): nat {
    if run == [] then 0 else (if IsBreeding(run[0]) then 1 else 0) + Breedings(run[1..])
  }

  /** The shape of an accepted breeding on the UTXO set. */
  lemma BreedingShape<V(!new)>(rt: Runtime<V, Checker>, host: Host, st: State<V>, t: Transaction<V, Checker>)
    requires Dresses(rt, host) && Accepted(rt, st, t) && Leaf(t.checker) == FreeKitty
    ensures |t.inputs| == 2 && |t.outputs| == 3 && t.inputs[0].outputRef != t.inputs[1].outputRef
    ensures forall k :: 0 <= k < 2 ==> t.inputs[k].outputRef in st.utxos && IsReady(st.utxos[t.inputs[k].outputRef])
    ensures forall k :: 0 <= k < 2 ==> IsKitty(t.outputs[k]) && !IsReady(t.outputs[k])
    ensures IsReady(t.outputs[2])
  {
    InputsInUtxos(rt, st, t);
    KittyPasses(rt, host, st, t);
    FamilyShape(host.dna, st.utxos, t);
  }

  lemma FamilyShape<V>(hash: Kitties.DnaHash, u: Utxos<V>, t: Transaction<V, Checker>)
    requires Kitties.Check(hash, Args(u, t)).Pass?
    requires forall k :: 0 <= k < |t.inputs| ==> t.inputs[k].outputRef in u
    ensures |t.inputs| == 2 && |t.outputs| == 3 && t.inputs[0].outputRef != t.inputs[1].outputRef
    ensures forall k :: 0 <= k < 2 ==> t.inputs[k].outputRef in u && IsReady(u[t.inputs[k].outputRef])
    ensures forall k :: 0 <= k < 2 ==> IsKitty(t.outputs[k]) && !IsReady(t.outputs[k])
    ensures IsReady(t.outputs[2])
  {
    Kitties.ParentsAndKitten(hash, Args(u, t));
    FamilyTransfers(u, t);
  }

  /** What holds of the payloads the checker was shown holds of the UTXOs. */
  lemma {:induction false} FamilyTransfers<V>(u: Utxos<V>, t: Transaction<V, Checker>)
    requires Kitties.Family(Args(u, t)) && forall k :: 0 <= k < |t.inputs| ==> t.inputs[k].outputRef in u
    ensures |t.inputs| == 2 && |t.outputs| == 3 && t.inputs[0].outputRef != t.inputs[1].outputRef
    ensures forall k :: 0 <= k < 2 ==> IsReady(u[t.inputs[k].outputRef])
    ensures forall k :: 0 <= k < 2 ==> IsKitty(t.outputs[k]) && !IsReady(t.outputs[k])
    ensures IsReady(t.outputs[2])
  {
    FamilyArgs(u, t);
    assert IsReady(u[t.inputs[0].outputRef]) && IsReady(u[t.inputs[1].outputRef]);
    assert IsKitty(t.outputs[0]) && !IsReady(t.outputs[0]);
    assert IsKitty(t.outputs[1]) && !IsReady(t.outputs[1]);
  }

  lemma {:induction false} FamilyArgs<V>(u: Utxos<V>, t: Transaction<V, Checker>)
    requires forall k :: 0 <= k < |t.inputs| ==> t.inputs[k].outputRef in u
    requires var a := Args(u, t); a.evicted == [] && |a.inputs| == 2 && |a.outputs| == 3
    ensures |t.inputs| == 2 && |t.outputs| == 3
    ensures var a := Args(u, t);
            && a.inputs[0] == u[t.inputs[0].outputRef].payload && a.inputs[1] == u[t.inputs[1].outputRef].payload
            && a.outputs[0] == t.outputs[0].payload && a.outputs[1] == t.outputs[1].payload
            && a.outputs[2] == t.outputs[2].payload
  {
    RedeemedPair(u, t.inputs);
  }

  /** How a breeding changes any count of kitties. */
  lemma BreedingTotal<V(!new)>(rt: Runtime<V, Checker>, host: Host, st: State<V>, t: Transaction<V, Checker>,
                               f: Output<V> -> int)
    requires Dresses(rt, host) && Accepted(rt, st, t) && Leaf(t.checker) == FreeKitty
    ensures |t.inputs| == 2 && |t.outputs| == 3
    ensures forall k :: 0 <= k < 2 ==> t.inputs[k].outputRef in st.utxos
    ensures Total(Apply(rt, st, t).0.utxos, f) == Total(st.utxos, f)
              - f(st.utxos[t.inputs[0].outputRef]) - f(st.utxos[t.inputs[1].outputRef])
              + f(t.outputs[0]) + f(t.outputs[1]) + f(t.outputs[2])
  {
    assert |t.inputs| == 2 && |t.outputs| == 3 && t.inputs[0].outputRef != t.inputs[1].outputRef
      by { BreedingShape(rt, host, st, t); }
    TotalAfter(rt, st, t, f);
    SumTwoInputs(st.utxos, t.inputs, f);
    SumThreeOutputs(t.outputs, f);
  }

  lemma {:induction false} SumThreeOutputs<V>(s: seq<Output<V>>, f: Output<V> -> int)
    requires |s| == 3
    ensures SumSeq(s, f) == f(s[0]) + f(s[1]) + f(s[2])
  {
    assert s == [s[0], s[1], s[2]];
    SumThree(s[0], s[1], s[2], f);
  }

  lemma BreedingStep<V(!new)>(rt: Runtime<V, Checker>, host: Host, st: State<V>, t: Transaction<V, Checker>)
    requires Dresses(rt, host) && Accepted(rt, st, t) && Leaf(t.checker) == FreeKitty
    ensures ReadyOnes(Apply(rt, st, t).0.utxos) == ReadyOnes(st.utxos) - 1
    ensures Population(Apply(rt, st, t).0.utxos) == Population(st.utxos) + 1
    ensures ReadyOnes(Apply(rt, st, t).0.utxos) >= 1
  {
    BreedingShape(rt, host, st, t);
    BreedingTotal(rt, host, st, t, CountReady());
    BreedingTotal(rt, host, st, t, CountKitty());
    KittenIsReady(rt, st, t);
  }

  lemma KittenIsReady<V>(rt: Runtime<V, Checker>, st: State<V>, t: Transaction<V, Checker>)
    requires Accepted(rt, st, t) && |t.outputs| == 3 && IsReady(t.outputs[2])
    ensures ReadyOnes(Apply(rt, st, t).0.utxos) >= 1
  {
    AcceptedIff(rt, st, t);
    CreatedContents(rt, t, OutRef(rt, t, 2));
    OneReady(After(rt, st.utxos, t), OutRef(rt, t, 2));
  }

  lemma OneReady<V>(u: Utxos<V>, r: OutputRef)
    requires r in u && IsReady(u[r])
    ensures ReadyOnes(u) >= 1
  {
    TotalRemove(u, CountReady(), r);
    TotalBounds(u - {r}, CountReady());
  }

  lemma OtherStep<V(!new)>(rt: Runtime<V, Checker>, host: Host, st: State<V>, e: Event<V, Checker>)
    requires Dresses(rt, host) && Enabled(rt, st, e) && !IsBreeding(e)
    ensures ReadyOnes(Next(rt, st, e).utxos) == ReadyOnes(st.utxos)
    ensures Population(Next(rt, st, e).utxos) == Population(st.utxos)
  {
    if e.Applied? {
      TypeTellsPiece(Leaf(e.tx.checker));
      ForeignTotal(rt, host, st, e.tx, CountReady(), KITTY_ID);
      ForeignTotal(rt, host, st, e.tx, CountKitty(), KITTY_ID);
    }
  }

  /**
   Over every run, ready kitties plus breedings is constant and each breeding adds exactly one
   kitty, so there can be at most one breeding fewer than there were ready kitties.
   */
  lemma {:induction false} BreedingOverRuns<V(!new)>(rt: Runtime<V, Checker>, host: Host, st: State<V>,
                                                     run: seq<Event<V, Checker>>)
    requires Dresses(rt, host) && Run(rt, st, run)
    ensures ReadyOnes(Final(rt, st, run).utxos) + Breedings(run) == ReadyOnes(st.utxos)
    ensures Population(Final(rt, st, run).utxos) == Population(st.utxos) + Breedings(run)
    ensures Breedings(run) > 0 ==> Breedings(run) <= ReadyOnes(st.utxos) - 1
    decreases |run|
  {
    if run == [] {
    } else {
      var e := run[0];
      BreedingOverRuns(rt, host, Next(rt, st, e), run[1..]);
      if IsBreeding(e) {
        BreedingStep(rt, host, st, e.tx);
      } else {
        OtherStep(rt, host, st, e);
      }
    }
  }

  /** A kitty that has bred can never breed again: it stays in the UTXO set, tired, forever. */
  lemma {:induction false} TiredForever<V(!new)>(rt: Runtime<V, Checker>, host: Host, st: State<V>,
                                                 run: seq<Event<V, Checker>>, r: OutputRef)
    requires Dresses(rt, host) && Run(rt, st, run)
    requires r in st.utxos && IsKitty(st.utxos[r]) && !IsReady(st.utxos[r])
    ensures r in Final(rt, st, run).utxos && Final(rt, st, run).utxos[r] == st.utxos[r]
    decreases |run|
  {
    if run == [] {
    } else {
      var e := run[0];
      if e.Applied? {
        if IsBreeding(e) {
          BreedingShape(rt, host, st, e.tx);
          ListedBefore(e.tx.inputs, r);
          OldStays(rt, st, e.tx, r);
        } else {
          TypeTellsPiece(Leaf(e.tx.checker));
          ForeignKeeps(rt, host, st, e.tx, r);
        }
      }
      TiredForever(rt, host, Next(rt, st, e), run[1..], r);
    }
  }
}
