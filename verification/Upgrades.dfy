/** The runtime upgrade over whole runs: one reference to the runtime code, always to the code stored. */
module Upgrades {
  import opened Scale
  import opened Types
  import opened Typing
  import opened UtxoSet
  import opened Ledger
  import opened Sums
  import opened Wardrobe
  import opened Conservation
  import Parachain

  predicate Upgrades<V>(e: Event<V, Checker>) {
    e.Applied? && Leaf(e.tx.checker).RuntimeUpgrade?
  }

  predicate StoresCode(ambient: Storage, wasm: Bytes) {
    CODE_KEY in ambient && ambient[CODE_KEY] == wasm
  }

  /** `r` holds the only reference to a runtime, and it is the hash of the stored code. */
  ghost predicate Attested<V>(host: Host, st: State<V>, r: OutputRef, wasm: Bytes) {
    && StoresCode(st.ambient, wasm)
    && r in st.utxos && ExtractRuntimeRef(st.utxos[r].payload) == Some(host.blake2(wasm))
    && forall s :: s in st.utxos && st.utxos[s].payload.typeId == RUNTIME_ID ==> s == r
  }

  /** The code of the last upgrade of a run. */
  function LastCode<V>(wasm: Bytes, run: seq<Event<V, Checker>>): Bytes
    decreases |run|
  {
    if run == [] then wasm
    else LastCode(if Upgrades(run[0]) then Leaf(run[0].tx.checker).fullWasm else wasm, run[1..])
  }

  /**
   An upgrade passes exactly when it redeems one reference, to the code that is stored, and its one
   output refers to the new code. It writes the new code then, and nothing otherwise.
   */
  lemma {:induction false} UpgradePassesIff<V(!new)>(rt: Runtime<V, Checker>, host: Host, st: State<V>,
                                                     t: Transaction<V, Checker>)
    requires Dresses(rt, host) && Leaf(t.checker).RuntimeUpgrade?
    requires forall k :: 0 <= k < |t.inputs| ==> t.inputs[k].outputRef in st.utxos
    ensures var out := rt.check(t.checker, st.height, st.ambient, Args(st.utxos, t));
            var wasm := Leaf(t.checker).fullWasm;
            && (out.passed <==>
                && |t.inputs| == 1 && t.inputs[0].redeemer.Redemption? && CODE_KEY in st.ambient
                && RefersTo(host, st.utxos[t.inputs[0].outputRef].payload, st.ambient[CODE_KEY])
                && |t.outputs| == 1 && RefersTo(host, t.outputs[0].payload, wasm))
            && out.writes == if out.passed then map[CODE_KEY := wasm] else map[]
  {
    var a := Args(st.utxos, t);
    assert Dressed(rt, host, t.checker, st.height, st.ambient, a);
    assert forall k :: 0 <= k < |t.outputs| ==> a.outputs[k] == t.outputs[k].payload;
    if a.evicted == [] {
      RedeemedAll(st.utxos, t.inputs);
    }
    if |t.inputs| == 1 {
      assert t.inputs[..0] == [];
      assert Redeemed(st.utxos, t.inputs[..0]) == [] && Evicted(st.utxos, t.inputs[..0]) == [];
    }
  }

  predicate RefersTo(host: Host, d: DynamicallyTypedData, wasm: Bytes) {
    ExtractRuntimeRef(d) == Some(host.blake2(wasm))
  }

  /** An upgrade consumes the reference to the old code, stores the new code and refers to it. */
  lemma {:induction false} UpgradeStep<V(!new)>(rt: Runtime<V, Checker>, host: Host, st: State<V>,
                                                t: Transaction<V, Checker>, r: OutputRef, wasm: Bytes)
    requires Dresses(rt, host) && Accepted(rt, st, t) && Leaf(t.checker).RuntimeUpgrade?
    requires Attested(host, st, r, wasm)
    ensures |t.inputs| == 1 && t.inputs[0].outputRef == r && |t.outputs| == 1
    ensures Attested(host, Apply(rt, st, t).0, OutRef(rt, t, 0), Leaf(t.checker).fullWasm)
  {
    InputsInUtxos(rt, st, t);
    LeafPasses(rt, host, st, t);
    RedeemedOne(st.utxos, t.inputs);
    AcceptedIff(rt, st, t);
    assert t.inputs[0].outputRef == r;
    assert Args(st.utxos, t).outputs[0] == t.outputs[0].payload;
    assert |t.outputs| == 1;
    OnlyNewRef(rt, host, st, t, r);
    NewCode(rt, host, st, t);
  }

  lemma {:induction false} NewCode<V(!new)>(rt: Runtime<V, Checker>, host: Host, st: State<V>,
                                            t: Transaction<V, Checker>)
    requires Dresses(rt, host) && Accepted(rt, st, t) && Leaf(t.checker).RuntimeUpgrade?
    ensures StoresCode(Apply(rt, st, t).0.ambient, Leaf(t.checker).fullWasm)
  {
    AppliedAmbient(rt, host, st, t);
    LeafPasses(rt, host, st, t);
  }

  lemma {:induction false} OnlyNewRef<V(!new)>(rt: Runtime<V, Checker>, host: Host, st: State<V>,
                                               t: Transaction<V, Checker>, r: OutputRef)
    requires Accepted(rt, st, t) && |t.inputs| == 1 && t.inputs[0].outputRef == r && |t.outputs| == 1
    requires forall s :: s in st.utxos && st.utxos[s].payload.typeId == RUNTIME_ID ==> s == r
    ensures var (u', r') := (Apply(rt, st, t).0.utxos, OutRef(rt, t, 0));
            && r' in u' && u'[r'] == t.outputs[0]
            && forall s :: s in u' && u'[s].payload.typeId == RUNTIME_ID ==> s == r'
  {
    AcceptedIff(rt, st, t);
    CreatedContents(rt, t, OutRef(rt, t, 0));
    var u' := Apply(rt, st, t).0.utxos;
    forall s | s in u' && u'[s].payload.typeId == RUNTIME_ID ensures s == OutRef(rt, t, 0) {
      AfterContents(rt, st, t, s);
      CreatedContents(rt, t, s);
      ListedBefore(t.inputs, s);
    }
  }

  /** Nothing else touches the code or its reference. */
  lemma {:induction false} OtherStep<V(!new)>(rt: Runtime<V, Checker>, host: Host, st: State<V>, e: Event<V, Checker>,
                                              r: OutputRef, wasm: Bytes)
    requires Dresses(rt, host) && Enabled(rt, st, e) && !Upgrades(e) && Attested(host, st, r, wasm)
    ensures Attested(host, Next(rt, st, e), r, wasm)
  {
    if e.Applied? {
      var t, u' := e.tx, Next(rt, st, e).utxos;
      TypeTellsPiece(Leaf(t.checker));
      TypesDiffer();
      ForeignKeeps(rt, host, st, t, r);
      forall s | s in u' && u'[s].payload.typeId == RUNTIME_ID ensures s == r {
        if s in st.utxos {
          OldStays(rt, st, t, s);
        } else {
          var i := NewIsOwn(rt, host, st, t, s);
        }
      }
      CodeStays(rt, host, st, t, wasm);
    }
  }

  lemma {:induction false} CodeStays<V(!new)>(rt: Runtime<V, Checker>, host: Host, st: State<V>,
                                              t: Transaction<V, Checker>, wasm: Bytes)
    requires Dresses(rt, host) && Accepted(rt, st, t) && !Leaf(t.checker).RuntimeUpgrade?
    requires StoresCode(st.ambient, wasm)
    ensures StoresCode(Apply(rt, st, t).0.ambient, wasm)
  {
    AppliedAmbient(rt, host, st, t);
    assert |CODE_KEY| != |Parachain.RELAY_PARENT_NUMBER_KEY|;
    assert CODE_KEY !in Wardrobe.Writes(host, Leaf(t.checker), st.height, st.ambient, Args(st.utxos, t));
  }

  /**
   Over every run the stored code is that of the last upgrade, and exactly one output refers to a
   runtime, by the hash of that code.
   */
  lemma {:induction false} AttestedOverRuns<V(!new)>(rt: Runtime<V, Checker>, host: Host, st: State<V>,
                                                     run: seq<Event<V, Checker>>, r: OutputRef, wasm: Bytes)
    returns (r': OutputRef)
    requires Dresses(rt, host) && Run(rt, st, run) && Attested(host, st, r, wasm)
    ensures Attested(host, Final(rt, st, run), r', LastCode(wasm, run))
    decreases |run|
  {
    if run == [] {
      r' := r;
    } else if Upgrades(run[0]) {
      var t := run[0].tx;
      UpgradeStep(rt, host, st, t, r, wasm);
      r' := AttestedOverRuns(rt, host, Next(rt, st, run[0]), run[1..], OutRef(rt, t, 0), Leaf(t.checker).fullWasm);
    } else {
      OtherStep(rt, host, st, run[0], r, wasm);
      r' := AttestedOverRuns(rt, host, Next(rt, st, run[0]), run[1..], r, wasm);
    }
  }
}
