/** Amoebas over whole runs: every creation is shared out among its descendants, dead or alive. */
module Kraft {
  import opened Scale
  import opened Types
  import opened Typing
  import opened UtxoSet
  import opened Ledger
  import opened Sums
  import opened Wardrobe
  import opened Conservation
  import Amoeba

  function Pow2(n: nat): (p: nat)
    ensures p > 0
  {
    if n == 0 then 1 else 2 * Pow2(n - 1)
  }

  /** The share `2^-generation` of an amoeba, scaled by `2^top` to be an integer. */
  function Share(top: nat, d: DynamicallyTypedData): nat
    requires top >= MAX_U32
  {
    match Amoeba.ExtractGeneration(d)
    case Some(g) => Pow2(top - g)
    case None => 0
  }

  function Shares<V>(top: nat): Output<V> -> int
    requires top >= MAX_U32
  {
    (o: Output<V>) => Share(top, o.payload)
  }

  ghost function Living<V>(top: nat, u: Utxos<V>): int
    requires top >= MAX_U32
  {
    Total(u, Shares(top))
  }

  predicate Calls<V>(e: Event<V, Checker>, call: Amoeba.AmoebaCall) {
    e.Applied? && Leaf(e.tx.checker) == AmoebaCall(call)
  }

  function Creations<V>(run: seq<Event<V, Checker>>): nat {
    if run == [] then 0 else (if Calls(run[0], Amoeba.Creation) then 1 else 0) + Creations(run[1..])
  }

  /** The shares handed out by creations. */
  function Born<V>(top: nat, run: seq<Event<V, Checker>>): nat {
    if run == [] then 0 else BornIn(top, run[0]) + Born(top, run[1..])
  }

  function BornIn<V>(top: nat, e: Event<V, Checker>): nat {
    if Calls(e, Amoeba.Creation) then Pow2(top) else 0
  }

  lemma {:induction false} BornIsWhole<V>(top: nat, run: seq<Event<V, Checker>>)
    ensures Born(top, run) == Creations(run) * Pow2(top)
  {
    if run == [] {
    } else {
      BornIsWhole(top, run[1..]);
      OneMore(Creations(run[1..]), Pow2(top));
    }
  }

  lemma OneMore(n: nat, unit: nat)
    ensures (1 + n) * unit == unit + n * unit
  {
  }

  /** The share of the victim of a death. */
  function Lost<V>(top: nat, u: Utxos<V>, t: Transaction<V, Checker>): nat
    requires top >= MAX_U32
  {
    if |t.inputs| == 1 && t.inputs[0].outputRef in u then Share(top, u[t.inputs[0].outputRef].payload) else 0
  }

  /** The shares of all amoebas that died during a run. */
  ghost function Dead<V>(rt: Runtime<V, Checker>, top: nat, st: State<V>, run: seq<Event<V, Checker>>): int
    requires top >= MAX_U32
    decreases |run|
  {
    if run == [] then 0
    else DiedIn(top, st.utxos, run[0]) + Dead(rt, top, Next(rt, st, run[0]), run[1..])
  }

  function DiedIn<V>(top: nat, u: Utxos<V>, e: Event<V, Checker>): int
    requires top >= MAX_U32
  {
    if Calls(e, Amoeba.Death) then Lost(top, u, e.tx) else 0
  }

  /** A mitosis whose daughters' generation would not wrap around. */
  predicate MotherCanAge<V>(u: Utxos<V>, t: Transaction<V, Checker>) {
    forall k :: 0 <= k < |t.inputs| && t.inputs[k].outputRef in u ==>
      Amoeba.ExtractGeneration(u[t.inputs[k].outputRef].payload) != Some(MAX_U32)
  }

  ghost predicate NoGenerationWraps<V>(rt: Runtime<V, Checker>, st: State<V>, run: seq<Event<V, Checker>>)
    decreases |run|
  {
    run == [] ||
    ((Calls(run[0], Amoeba.Mitosis) ==> MotherCanAge(st.utxos, run[0].tx)) &&
     NoGenerationWraps(rt, Next(rt, st, run[0]), run[1..]))
  }

  /** The inputs and outputs of an accepted amoeba transaction. */
  lemma AmoebaShape<V(!new)>(rt: Runtime<V, Checker>, host: Host, st: State<V>, t: Transaction<V, Checker>,
                             call: Amoeba.AmoebaCall)
    requires Dresses(rt, host) && Accepted(rt, st, t) && Leaf(t.checker) == AmoebaCall(call)
    ensures |t.inputs| == (if call.Creation? then 0 else 1)
    ensures |t.outputs| == (match call case Creation => 1 case Death => 0 case Mitosis => 2)
    ensures |t.inputs| == 1 ==>
              t.inputs[0].outputRef in st.utxos &&
              Amoeba.ExtractGeneration(st.utxos[t.inputs[0].outputRef].payload).Some?
    ensures forall k :: 0 <= k < |t.outputs| ==>
              Amoeba.ExtractGeneration(t.outputs[k].payload) ==
              if call.Creation? then Some(0)
              else Some(Amoeba.NextGeneration(Amoeba.ExtractGeneration(st.utxos[t.inputs[0].outputRef].payload).value))
  {
    InputsInUtxos(rt, st, t);
    AmoebaPasses(rt, host, st, t);
    ShapeFromCheck(st.utxos, t, call);
  }

  lemma ShapeFromCheck<V>(u: Utxos<V>, t: Transaction<V, Checker>, call: Amoeba.AmoebaCall)
    requires Amoeba.Check(call, Args(u, t)).Pass?
    requires forall k :: 0 <= k < |t.inputs| ==> t.inputs[k].outputRef in u
    ensures |t.inputs| == (if call.Creation? then 0 else 1)
    ensures |t.outputs| == (match call case Creation => 1 case Death => 0 case Mitosis => 2)
    ensures |t.inputs| == 1 ==> Amoeba.ExtractGeneration(u[t.inputs[0].outputRef].payload).Some?
    ensures forall k :: 0 <= k < |t.outputs| ==>
              Amoeba.ExtractGeneration(t.outputs[k].payload) ==
              if call.Creation? then Some(0)
              else Some(Amoeba.NextGeneration(Amoeba.ExtractGeneration(u[t.inputs[0].outputRef].payload).value))
  {
    var a := Args(u, t);
    if call.Creation? {
      RedeemedAll(u, t.inputs);
    } else {
      RedeemedOne(u, t.inputs);
    }
    assert forall k :: 0 <= k < |t.outputs| ==> a.outputs[k] == t.outputs[k].payload;
  }

  lemma {:induction false} ShareOf(top: nat, d: DynamicallyTypedData, g: U32)
    requires top >= MAX_U32 && Amoeba.ExtractGeneration(d) == Some(g)
    ensures Share(top, d) == Pow2(top - g)
  {
  }

  lemma {:induction false} CreationSums<V(!new)>(rt: Runtime<V, Checker>, host: Host, top: nat, st: State<V>,
                                                 t: Transaction<V, Checker>)
    requires top >= MAX_U32 && Dresses(rt, host) && Accepted(rt, st, t)
    requires Leaf(t.checker) == AmoebaCall(Amoeba.Creation)
    ensures t.inputs == [] && SumSeq(t.outputs, Shares(top)) == Pow2(top)
  {
    AmoebaShape(rt, host, st, t, Amoeba.Creation);
    var o := t.outputs[0];
    assert t.outputs == [o];
    SumOne(o, Shares(top));
    ShareOf(top, o.payload, 0);
  }

  lemma {:induction false} CreationStep<V(!new)>(rt: Runtime<V, Checker>, host: Host, top: nat, st: State<V>,
                                                 t: Transaction<V, Checker>)
    requires top >= MAX_U32 && Dresses(rt, host) && Accepted(rt, st, t)
    requires Leaf(t.checker) == AmoebaCall(Amoeba.Creation)
    ensures Living(top, Apply(rt, st, t).0.utxos) == Living(top, st.utxos) + Pow2(top)
  {
    CreationSums(rt, host, top, st, t);
    TotalAfter(rt, st, t, Shares(top));
  }

  lemma DeathStep<V(!new)>(rt: Runtime<V, Checker>, host: Host, top: nat, st: State<V>, t: Transaction<V, Checker>)
    requires top >= MAX_U32 && Dresses(rt, host) && Accepted(rt, st, t) && Leaf(t.checker) == AmoebaCall(Amoeba.Death)
    ensures Living(top, Apply(rt, st, t).0.utxos) == Living(top, st.utxos) - Lost(top, st.utxos, t)
  {
    AmoebaShape(rt, host, st, t, Amoeba.Death);
    TotalAfter(rt, st, t, Shares(top));
    SumOneInput(st.utxos, t.inputs, Shares(top));
    SumSeqVanishes(t.outputs, Shares(top));
  }

  lemma {:induction false} Pow2Grows(m: nat, n: nat)
    requires m < n
    ensures Pow2(m) < Pow2(n)
  {
    if m < n - 1 {
      Pow2Grows(m, n - 1);
    }
  }

  /** Two daughters share what the mother had, unless their generation wrapped. */
  lemma DaughtersShare(top: nat, g: U32)
    requires top >= MAX_U32
    ensures 2 * Pow2(top - Amoeba.NextGeneration(g)) == Pow2(top - g) <==> g != MAX_U32
  {
    if g == MAX_U32 {
      Pow2Grows(top - g, top);
    }
  }

  lemma {:induction false} MitosisSums<V(!new)>(rt: Runtime<V, Checker>, host: Host, top: nat, st: State<V>,
                                                t: Transaction<V, Checker>, g: U32)
    requires top >= MAX_U32 && Dresses(rt, host) && Accepted(rt, st, t) && Leaf(t.checker) == AmoebaCall(Amoeba.Mitosis)
    requires |t.inputs| == 1 && t.inputs[0].outputRef in st.utxos
    requires Amoeba.ExtractGeneration(st.utxos[t.inputs[0].outputRef].payload) == Some(g)
    ensures SumSeq(t.outputs, Shares(top)) == 2 * Pow2(top - Amoeba.NextGeneration(g))
    ensures SumInputs(st.utxos, t.inputs, Shares(top)) == Pow2(top - g)
    ensures SumRepeats(st.utxos, t.inputs, Shares(top)) == 0
  {
    AmoebaShape(rt, host, st, t, Amoeba.Mitosis);
    var m := Amoeba.NextGeneration(g);
    var o, o' := t.outputs[0], t.outputs[1];
    assert t.outputs == [o, o'];
    ShareOf(top, o.payload, m);
    ShareOf(top, o'.payload, m);
    SumTwo(o, o', Shares(top));
    ShareOf(top, st.utxos[t.inputs[0].outputRef].payload, g);
    SumOneInput(st.utxos, t.inputs, Shares(top));
  }

  /** Mitosis keeps the shares exactly when the mother's generation does not wrap. */
  lemma MitosisConservesIff<V(!new)>(rt: Runtime<V, Checker>, host: Host, top: nat, st: State<V>,
                                     t: Transaction<V, Checker>)
    requires top >= MAX_U32 && Dresses(rt, host) && Accepted(rt, st, t) && Leaf(t.checker) == AmoebaCall(Amoeba.Mitosis)
    ensures Living(top, Apply(rt, st, t).0.utxos) == Living(top, st.utxos) <==> MotherCanAge(st.utxos, t)
  {
    AmoebaShape(rt, host, st, t, Amoeba.Mitosis);
    var g := Amoeba.ExtractGeneration(st.utxos[t.inputs[0].outputRef].payload).value;
    MitosisStep(rt, host, top, st, t, g);
    DaughtersShare(top, g);
    assert MotherCanAge(st.utxos, t) <==> g != MAX_U32;
  }

  /** The exact change of the shares. */
  lemma {:induction false} MitosisStep<V(!new)>(rt: Runtime<V, Checker>, host: Host, top: nat, st: State<V>,
                                                t: Transaction<V, Checker>, g: U32)
    requires top >= MAX_U32 && Dresses(rt, host) && Accepted(rt, st, t) && Leaf(t.checker) == AmoebaCall(Amoeba.Mitosis)
    requires |t.inputs| == 1 && t.inputs[0].outputRef in st.utxos
    requires Amoeba.ExtractGeneration(st.utxos[t.inputs[0].outputRef].payload) == Some(g)
    ensures Living(top, Apply(rt, st, t).0.utxos) ==
            Living(top, st.utxos) - Pow2(top - g) + 2 * Pow2(top - Amoeba.NextGeneration(g))
  {
    MitosisSums(rt, host, top, st, t, g);
    TotalAfter(rt, st, t, Shares(top));
  }

  // ----- Mitoses that wrap

  /** What a mitosis of the highest generation adds: two whole units for the mother's share. */
  function Surplus(top: nat): (s: nat)
    requires top >= MAX_U32
    ensures s > 0
  {
    Pow2Grows(top - MAX_U32, top);
    2 * Pow2(top) - Pow2(top - MAX_U32)
  }

  predicate WrapsIn<V>(u: Utxos<V>, e: Event<V, Checker>) {
    Calls(e, Amoeba.Mitosis) && !MotherCanAge(u, e.tx)
  }

  /** How many mitoses of a run wrap. */
  ghost function Wraps<V>(rt: Runtime<V, Checker>, st: State<V>, run: seq<Event<V, Checker>>): nat
    decreases |run|
  {
    if run == [] then 0
    else (if WrapsIn(st.utxos, run[0]) then 1 else 0) + Wraps(rt, Next(rt, st, run[0]), run[1..])
  }

  lemma {:induction false} NoWrapsIff<V>(rt: Runtime<V, Checker>, st: State<V>, run: seq<Event<V, Checker>>)
    ensures Wraps(rt, st, run) == 0 <==> NoGenerationWraps(rt, st, run)
    decreases |run|
  {
    if run == [] {
    } else {
      NoWrapsIff(rt, Next(rt, st, run[0]), run[1..]);
    }
  }

  lemma {:induction false} WrapStep<V(!new)>(rt: Runtime<V, Checker>, host: Host, top: nat, st: State<V>,
                                             t: Transaction<V, Checker>)
    requires top >= MAX_U32 && Dresses(rt, host) && Accepted(rt, st, t) && Leaf(t.checker) == AmoebaCall(Amoeba.Mitosis)
    requires !MotherCanAge(st.utxos, t)
    ensures Living(top, Apply(rt, st, t).0.utxos) == Living(top, st.utxos) + Surplus(top)
  {
    AmoebaShape(rt, host, st, t, Amoeba.Mitosis);
    ZeroIsWhole(top);
    SharesGrow(rt, host, top, st, t, MAX_U32, Pow2(top), Pow2(top - MAX_U32));
  }

  function WrappedIn<V>(top: nat, u: Utxos<V>, e: Event<V, Checker>): nat
    requires top >= MAX_U32
  {
    if WrapsIn(u, e) then Surplus(top) else 0
  }

  lemma KraftStep<V(!new)>(rt: Runtime<V, Checker>, host: Host, top: nat, st: State<V>, e: Event<V, Checker>)
    requires top >= MAX_U32 && Dresses(rt, host) && Enabled(rt, st, e)
    ensures Living(top, Next(rt, st, e).utxos) + DiedIn(top, st.utxos, e) ==
            Living(top, st.utxos) + BornIn(top, e) + WrappedIn(top, st.utxos, e)
  {
    if e.Opened? {
      return;
    }
    match Leaf(e.tx.checker)
    case AmoebaCall(Creation) => CreationStep(rt, host, top, st, e.tx);
    case AmoebaCall(Death) => DeathStep(rt, host, top, st, e.tx);
    case AmoebaCall(Mitosis) =>
      if MotherCanAge(st.utxos, e.tx) {
        MitosisConservesIff(rt, host, top, st, e.tx);
      } else {
        WrapStep(rt, host, top, st, e.tx);
      }
    case _ =>
      TypeTellsPiece(Leaf(e.tx.checker));
      ForeignTotal(rt, host, st, e.tx, Shares(top), AMOEBA_ID);
  }

  // ----- Runs

  /** The surplus of the mitoses that wrap. */
  ghost function Wrapped<V>(rt: Runtime<V, Checker>, top: nat, st: State<V>, run: seq<Event<V, Checker>>): nat
    requires top >= MAX_U32
    decreases |run|
  {
    if run == [] then 0
    else WrappedIn(top, st.utxos, run[0]) + Wrapped(rt, top, Next(rt, st, run[0]), run[1..])
  }

  lemma {:induction false} WrappedIsWhole<V>(rt: Runtime<V, Checker>, top: nat, st: State<V>,
                                             run: seq<Event<V, Checker>>)
    requires top >= MAX_U32
    ensures Wrapped(rt, top, st, run) == Wraps(rt, st, run) * Surplus(top)
    decreases |run|
  {
    if run == [] {
    } else {
      WrappedIsWhole(rt, top, Next(rt, st, run[0]), run[1..]);
      OneMore(Wraps(rt, Next(rt, st, run[0]), run[1..]), Surplus(top));
    }
  }

  lemma {:induction false} KraftBalance<V(!new)>(rt: Runtime<V, Checker>, host: Host, top: nat, st: State<V>,
                                                 run: seq<Event<V, Checker>>)
    requires top >= MAX_U32 && Dresses(rt, host) && Run(rt, st, run)
    ensures Living(top, Final(rt, st, run).utxos) + Dead(rt, top, st, run) ==
            Living(top, st.utxos) + Born(top, run) + Wrapped(rt, top, st, run)
    decreases |run|
  {
    if run == [] {
    } else {
      KraftBalance(rt, host, top, Next(rt, st, run[0]), run[1..]);
      KraftStep(rt, host, top, st, run[0]);
    }
  }

  /**
   Over every run, the shares of the living and of the dead add up to the initial shares, one whole
   unit for every creation, and the surplus of every mitosis that wraps.
   */
  lemma {:induction false} KraftOverAllRuns<V(!new)>(rt: Runtime<V, Checker>, host: Host, top: nat, st: State<V>,
                                                     run: seq<Event<V, Checker>>)
    requires top >= MAX_U32 && Dresses(rt, host) && Run(rt, st, run)
    ensures Living(top, Final(rt, st, run).utxos) + Dead(rt, top, st, run) ==
            Living(top, st.utxos) + Creations(run) * Pow2(top) + Wraps(rt, st, run) * Surplus(top)
  {
    KraftBalance(rt, host, top, st, run);
    BornIsWhole(top, run);
    WrappedIsWhole(rt, top, st, run);
  }

  /**
   The Kraft equality: the shares of the living and of the dead add up to the initial shares plus
   one whole unit for every creation, exactly on the runs in which no generation wraps.
   */
  lemma {:induction false} KraftOverRuns<V(!new)>(rt: Runtime<V, Checker>, host: Host, top: nat, st: State<V>,
                                                  run: seq<Event<V, Checker>>)
    requires top >= MAX_U32 && Dresses(rt, host) && Run(rt, st, run)
    ensures (Living(top, Final(rt, st, run).utxos) + Dead(rt, top, st, run) ==
             Living(top, st.utxos) + Creations(run) * Pow2(top)) <==> NoGenerationWraps(rt, st, run)
  {
    KraftOverAllRuns(rt, host, top, st, run);
    NoWrapsIff(rt, st, run);
    NoneOrMore(Wraps(rt, st, run), Surplus(top));
  }

  lemma NoneOrMore(n: nat, unit: nat)
    requires unit > 0
    ensures n * unit == 0 <==> n == 0
  {
  }

  // ----- The generation that wraps

  function AmoebaData(g: U32, rest: Vec<Byte>): DynamicallyTypedData
    requires |rest| == 4
  {
    DynamicallyTypedData(LeBytes(g, 4) + rest, AMOEBA_ID)
  }

  lemma GenerationOf(g: U32, rest: Vec<Byte>)
    requires |rest| == 4
    ensures Amoeba.ExtractGeneration(AmoebaData(g, rest)) == Some(g)
  {
    Widths();
    LeNatOfLeBytes(g, 4);
    assert AmoebaData(g, rest).data[0..4] == LeBytes(g, 4);
  }

  /** Splits the amoeba at `r` into two of generation zero. */
  function BackToZero<V>(r: OutputRef,
                         redeemer: Vec<Byte>, a: Vec<Byte>, b: Vec<Byte>, v: V, path: Checker): Transaction<V, Checker>
    requires |a| == 4 && |b| == 4
  {
    Transaction([Input(r, Redemption(redeemer))], [], [Output(AmoebaData(0, a), v), Output(AmoebaData(0, b), v)], path)
  }

  lemma {:induction false} BackToZeroPasses<V(!new)>(rt: Runtime<V, Checker>, host: Host, st: State<V>, r: OutputRef,
                                                     redeemer: Vec<Byte>, a: Vec<Byte>, b: Vec<Byte>, v: V,
                                                     path: Checker)
    requires Dresses(rt, host) && Leaf(path) == AmoebaCall(Amoeba.Mitosis) && |a| == 4 && |b| == 4
    requires r in st.utxos && Amoeba.ExtractGeneration(st.utxos[r].payload) == Some(MAX_U32)
    ensures rt.check(path, st.height, st.ambient, Args(st.utxos, BackToZero(r, redeemer, a, b, v, path))).passed
  {
    var t := BackToZero(r, redeemer, a, b, v, path);
    RedeemedOnly(st.utxos, r, redeemer);
    GenerationOf(0, a);
    GenerationOf(0, b);
    assert Args(st.utxos, t) == CheckArgs([st.utxos[r].payload], [], [], [AmoebaData(0, a), AmoebaData(0, b)]);
    assert Dressed(rt, host, path, st.height, st.ambient, Args(st.utxos, t));
  }

  lemma {:induction false} RedeemedOnly<V>(u: Utxos<V>, r: OutputRef, redeemer: Vec<Byte>)
    requires r in u
    ensures var s := [Input(r, Redemption(redeemer))]; Redeemed(u, s) == [u[r].payload] && Evicted(u, s) == []
  {
    var s := [Input(r, Redemption(redeemer))];
    assert s[..0] == [];
    assert Redeemed(u, s[..0]) == [] && Evicted(u, s[..0]) == [];
  }

  /**
   An amoeba of the highest generation that anyone may split becomes two of generation zero: the
   transaction above is accepted, and the shares grow by almost two units out of nothing.
   */
  lemma {:induction false} SharesFromNothing<V(!new)>(rt: Runtime<V, Checker>, host: Host, top: nat, st: State<V>,
                                                      r: OutputRef, redeemer: Vec<Byte>, a: Vec<Byte>, b: Vec<Byte>,
                                                      v: V, path: Checker)
    requires top >= MAX_U32 && Dresses(rt, host) && Leaf(path) == AmoebaCall(Amoeba.Mitosis) && |a| == 4 && |b| == 4
    requires r in st.utxos && Amoeba.ExtractGeneration(st.utxos[r].payload) == Some(MAX_U32) && st.height.Some?
    requires var t := BackToZero(r, redeemer, a, b, v, path);
             && rt.redeemable(st.utxos[r].verifier, redeemer)
             && rt.verify(st.utxos[r].verifier, StrippedBytes(rt, t), st.height.value, redeemer)
             && Fresh(rt, st.utxos, t)
    ensures var t := BackToZero(r, redeemer, a, b, v, path);
            && Accepted(rt, st, t) && !MotherCanAge(st.utxos, t)
            && Living(top, Apply(rt, st, t).0.utxos) == Living(top, st.utxos) + 2 * Pow2(top) - Pow2(top - MAX_U32)
            && Living(top, Apply(rt, st, t).0.utxos) > Living(top, st.utxos)
  {
    var t := BackToZero(r, redeemer, a, b, v, path);
    assert Accepted(rt, st, t) by {
      BackToZeroPasses(rt, host, st, r, redeemer, a, b, v, path);
      assert Spendable(rt, st, t, t.inputs[0]);
    }
    ZeroIsWhole(top);
    SharesGrow(rt, host, top, st, t, MAX_U32, Pow2(top), Pow2(top - MAX_U32));
    MotherIsLast(st.utxos, t);
  }

  /** The change of the shares when the daughters' share is `p` and the mother's was `q`. */
  lemma {:induction false} SharesGrow<V(!new)>(rt: Runtime<V, Checker>, host: Host, top: nat, st: State<V>,
                                               t: Transaction<V, Checker>, g: U32, p: nat, q: nat)
    requires top >= MAX_U32 && Dresses(rt, host) && Accepted(rt, st, t) && Leaf(t.checker) == AmoebaCall(Amoeba.Mitosis)
    requires |t.inputs| == 1 && t.inputs[0].outputRef in st.utxos
    requires Amoeba.ExtractGeneration(st.utxos[t.inputs[0].outputRef].payload) == Some(g)
    requires p == Pow2(top - Amoeba.NextGeneration(g)) && q == Pow2(top - g) && p > q
    ensures Living(top, Apply(rt, st, t).0.utxos) == Living(top, st.utxos) + 2 * p - q > Living(top, st.utxos)
  {
    MitosisStep(rt, host, top, st, t, g);
  }

  lemma ZeroIsWhole(top: nat)
    requires top >= MAX_U32
    ensures Pow2(top - Amoeba.NextGeneration(MAX_U32)) == Pow2(top) > Pow2(top - MAX_U32)
  {
    assert Amoeba.NextGeneration(MAX_U32) == 0;
    Pow2Grows(top - MAX_U32, top);
  }

  lemma MotherIsLast<V>(u: Utxos<V>, t: Transaction<V, Checker>)
    requires |t.inputs| == 1 && t.inputs[0].outputRef in u
    requires Amoeba.ExtractGeneration(u[t.inputs[0].outputRef].payload) == Some(MAX_U32)
    ensures !MotherCanAge(u, t)
  {
    assert t.inputs[0].outputRef in u;
  }
}
