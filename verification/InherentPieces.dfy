/**
 The inherent hooks of the timestamp and parachain pieces (`wardrobe/timestamp/src/lib.rs`,
 `wardrobe/parachain/src/lib.rs`), with everything they panic on.
 */
module InherentPieces {
  import opened Scale
  import opened Types
  import opened Typing
  import opened Wardrobe
  import opened Timestamps
  import opened Parachain
  import opened Inherents
  import opened InherentChecks
  import Payloads

  /**
   What a node feeds the hooks, as far as it is there and decodes: its clock and the relay chain's
   data; and the height stored in the state the hooks are called on.
   */
  datatype InherentData = InherentData(time: Option<U64>, height: Option<U32>, info: Option<ParachainInfo>)

  /**
   What the pieces rely on: the verifier type's unspendable value, if it has one, the library's
   encoding of the relay data, the relay data of genesis, and whether the library counts a drifting
   clock as a fatal error.
   */
  datatype Maker<!V> = Maker(
    unspendable: Option<V>, infoBytes: ParachainInfo -> Vec<Byte>, genesisInfo: ParachainInfo, driftIsFatal: bool)

  // ----- Creating

  function TimestampData(t: Timestamp): DynamicallyTypedData {
    DynamicallyTypedData(LeBytes(t.time, 8) + LeBytes(t.block, 4), TIMESTAMP_ID)
  }

  lemma TimestampRoundTrip(t: Timestamp)
    ensures ExtractTimestamp(TimestampData(t)) == Some(t)
  {
    var d := TimestampData(t);
    assert d.data[..12] == d.data;
    Payloads.TimestampReads(d, t);
  }

  /** The clock update that follows the inherent with the given hash. */
  function ClockTx<V>(v: V, t: Timestamp, parent: H256): Transaction<V, Checker> {
    Transaction([], [OutputRef(parent, 0)], [Output(TimestampData(t), v)], Plain(TimestampCall(Set)))
  }

  /** The relay data update that follows the inherent with the given hash. */
  function InfoTx<V>(v: V, data: Vec<Byte>, parent: H256): Transaction<V, Checker> {
    Transaction([Input(OutputRef(parent, 0), Eviction)], [],
                [Output(DynamicallyTypedData(data, PARACHAIN_ID), v)], Plain(SetParachainInfo))
  }

  function NextTimestamp<V>(m: Maker<V>, d: InherentData, parent: H256): Option<Transaction<V, Checker>> {
    match (d.time, d.height, m.unspendable)
    case (Some(time), Some(height), Some(v)) => Some(ClockTx(v, Timestamp(time, height), parent))
    case _ => None
  }

  function NextInfo<V>(m: Maker<V>, d: InherentData, parent: H256): Option<Transaction<V, Checker>> {
    match (d.info, m.unspendable)
    case (Some(info), Some(v)) => Some(InfoTx(v, m.infoBytes(info), parent))
    case _ => None
  }

  function FirstTimestamp<V>(v: V): Transaction<V, Checker> {
    Transaction([], [], [Output(TimestampData(Timestamp(0, 0)), v)], Plain(TimestampCall(Set)))
  }

  function FirstInfo<V>(v: V, data: Vec<Byte>): Transaction<V, Checker> {
    Transaction([], [], [Output(DynamicallyTypedData(data, PARACHAIN_ID), v)], Plain(SetParachainInfo))
  }

  // ----- Checking

  /** The inherent's first output, if it is a timestamp. */
  function OnChainTime<V>(t: Transaction<V, Checker>): Option<Timestamp> {
    if t.outputs == [] then None else ExtractTimestamp(t.outputs[0].payload)
  }

  function TimestampOpinion<V>(m: Maker<V>, d: InherentData, t: Transaction<V, Checker>): Opinion {
    if d.time.None? then Panicked
    else
      match OnChainTime(t)
      case None => Panicked
      case Some(onChain) =>
        if onChain.time > Add64(d.time.value, MAX_DRIFT) then Raised(0, m.driftIsFatal) else Silent
  }

  /** The hooks of the two pieces; the relay data is not checked off chain. */
  ghost predicate Provides<V(!new)>(hooks: Hooks<V, InherentData>, m: Maker<V>) {
    && (forall d, t, h :: hooks.create(TimestampCall(Set), d, t, h) == NextTimestamp(m, d, h))
    && (forall d, t, h :: hooks.create(SetParachainInfo, d, t, h) == NextInfo(m, d, h))
    && (forall d, t :: hooks.check(TimestampCall(Set), d, t) == TimestampOpinion(m, d, t))
    && (forall d, t :: hooks.check(SetParachainInfo, d, t) == Silent)
    && (m.unspendable.Some? ==>
          && hooks.genesis(TimestampCall(Set)) == [FirstTimestamp(m.unspendable.value)]
          && hooks.genesis(SetParachainInfo) == [FirstInfo(m.unspendable.value, m.infoBytes(m.genesisInfo))])
  }

  // ----- Runtimes whose inherents come from these two pieces

  predicate ClockLeaf(l: Checker) { Leaf(l) == TimestampCall(Set) }

  predicate InfoLeaf(l: Checker) { Leaf(l) == SetParachainInfo }

  predicate OnlyTheseTwo(leaves: seq<Checker>) {
    forall k :: 0 <= k < |leaves| ==> ClockLeaf(leaves[k]) || InfoLeaf(leaves[k])
  }

  /** The piece at leaf `l` has what it needs. */
  predicate Fed<V>(m: Maker<V>, d: InherentData, l: Checker) {
    && m.unspendable.Some?
    && (ClockLeaf(l) ==> d.time.Some? && d.height.Some?)
    && (InfoLeaf(l) ==> d.info.Some?)
  }

  /** What authoring needs: exactly then no leaf's piece panics. */
  lemma SuppliesIff<V(!new)>(hooks: Hooks<V, InherentData>, m: Maker<V>, leaves: seq<Checker>, d: InherentData,
                             t: Transaction<V, Checker>, h: H256)
    requires Provides(hooks, m) && OnlyTheseTwo(leaves)
    ensures Supplies(hooks, leaves, d) <==> forall k :: 0 <= k < |leaves| ==> Fed(m, d, leaves[k])
  {
    if Supplies(hooks, leaves, d) {
      forall k | 0 <= k < |leaves| ensures Fed(m, d, leaves[k]) {
        MakesIff(hooks, m, leaves[k], d, t, h);
      }
    }
    if forall k :: 0 <= k < |leaves| ==> Fed(m, d, leaves[k]) {
      forall k, t', h' | 0 <= k < |leaves| ensures hooks.create(Leaf(leaves[k]), d, t', h').Some? {
        MakesIff(hooks, m, leaves[k], d, t', h');
      }
    }
  }

  lemma {:induction false} MakesIff<V(!new)>(hooks: Hooks<V, InherentData>, m: Maker<V>, l: Checker, d: InherentData,
                                             t: Transaction<V, Checker>, h: H256)
    requires Provides(hooks, m) && (ClockLeaf(l) || InfoLeaf(l))
    ensures hooks.create(Leaf(l), d, t, h).Some? <==> Fed(m, d, l)
  {
    if ClockLeaf(l) {
      assert hooks.create(TimestampCall(Set), d, t, h) == NextTimestamp(m, d, h);
    } else {
      assert hooks.create(SetParachainInfo, d, t, h) == NextInfo(m, d, h);
    }
  }

  /** All leaves but `k` belong to the parachain piece, which raises nothing. */
  predicate OneClock(leaves: seq<Checker>, k: nat) {
    k < |leaves| && ClockLeaf(leaves[k]) && forall i :: 0 <= i < |leaves| && i != k ==> InfoLeaf(leaves[i])
  }

  lemma {:induction false} NoComplaints<V(!new)>(hooks: Hooks<V, InherentData>, m: Maker<V>, d: InherentData,
                                                 s: seq<Tagged<V, ()>>, leaves: seq<Checker>)
    requires Provides(hooks, m) && forall i :: 0 <= i < |leaves| ==> InfoLeaf(leaves[i])
    ensures Complaints(hooks, d, s, leaves) == []
  {
    if leaves == [] {
    } else {
      NoComplaints(hooks, m, d, s, leaves[..|leaves| - 1]);
    }
  }

  /** What the clock's own check says about its inherent, if there is exactly one. */
  function ClockSays<V>(m: Maker<V>, d: InherentData, s: seq<Tagged<V, ()>>, l: Checker): Option<Opinion> {
    if CountOf(s, l) != 1 then None else Some(TimestampOpinion(m, d, The(s, l).tx))
  }

  /** The check does not look at the checker. */
  lemma SaysAlike<V>(m: Maker<V>, d: InherentData, t: Transaction<V, Checker>)
    ensures forall c :: TimestampOpinion(m, d, t.(checker := c)) == TimestampOpinion(m, d, t)
  {
  }

  predicate Mild(o: Option<Opinion>) {
    o.Some? && (o.value.Silent? || (o.value.Raised? && !o.value.severe))
  }

  /** What each leaf contributes to the outcome. */
  lemma {:induction false} ClearsIff<V(!new)>(hooks: Hooks<V, InherentData>, m: Maker<V>, d: InherentData,
                                              s: seq<Tagged<V, ()>>, leaves: seq<Checker>, k: nat, i: nat)
    requires Provides(hooks, m) && OneClock(leaves, k) && i < |leaves|
    ensures var (rep, says) := (Report(false, []), ClockSays(m, d, s, leaves[k]));
            && (Clears(hooks, d, s, leaves, rep, i) <==> CountOf(s, leaves[i]) == 1 && (i == k ==> Mild(says)))
            && (Panics(hooks, d, s, leaves, rep, i) <==> i == k && says == Some(Panicked))
  {
    if i == k {
      NoComplaints(hooks, m, d, s, leaves[..i]);
      assert [] + Complaints(hooks, d, s, leaves[..i]) == [];
      if CountOf(s, leaves[i]) == 1 {
        var t := The(s, leaves[i]).tx;
        SaysAlike(m, d, t);
      }
    } else {
      assert OpinionOf(hooks, d, s, leaves[i]).Some? ==> OpinionOf(hooks, d, s, leaves[i]) == Some(Silent);
    }
  }

  /**
   A runtime with one clock among its inherent leaves, the others being parachain infos: checking a
   block panics exactly when the leaves before the clock have one inherent each, the clock has one,
   and the node has no clock of its own or the inherent does not announce a timestamp. It ends
   without a fatal error exactly when every leaf has one inherent and the clock's is announced and
   not fatally far ahead.
   */
  lemma {:induction false} ClockDecides<V(!new)>(hooks: Hooks<V, InherentData>, m: Maker<V>, tree: Tree,
                                                 d: InherentData, s: seq<Tagged<V, ()>>, k: nat)
    requires Provides(hooks, m) && AllTyped(tree, s) && OneClock(Leaves(tree), k)
    ensures var (r, leaves) := (CheckAll(hooks, tree, d, s, Report(false, [])), Leaves(tree));
            && (r.None? <==>
                  && (forall i :: 0 <= i <= k ==> CountOf(s, leaves[i]) == 1)
                  && (d.time.None? || OnChainTime(The(s, leaves[k]).tx).None?))
            && (r.Some? && !r.value.fatal <==>
                  && (forall i :: 0 <= i < |leaves| ==> CountOf(s, leaves[i]) == 1)
                  && d.time.Some? && OnChainTime(The(s, leaves[k]).tx).Some?
                  && (m.driftIsFatal ==> OnChainTime(The(s, leaves[k]).tx).value.time <= Add64(d.time.value, 60_000)))
  {
    var leaves, rep := Leaves(tree), Report(false, []);
    CheckExact(hooks, tree, d, s, rep);
    forall i | 0 <= i < |leaves|
      ensures Clears(hooks, d, s, leaves, rep, i) <==>
              CountOf(s, leaves[i]) == 1 && (i == k ==> Mild(ClockSays(m, d, s, leaves[k])))
      ensures Panics(hooks, d, s, leaves, rep, i) <==> i == k && ClockSays(m, d, s, leaves[k]) == Some(Panicked)
    {
      ClearsIff(hooks, m, d, s, leaves, k, i);
    }
    assert AllClear(hooks, d, s, leaves, rep, k) <==> forall i :: 0 <= i < k ==> CountOf(s, leaves[i]) == 1;
  }

  /** The announced time is more than a minute ahead of the node's. */
  predicate Drifts<V>(d: InherentData, t: Transaction<V, Checker>) {
    d.time.Some? && OnChainTime(t).Some? && OnChainTime(t).value.time > Add64(d.time.value, 60_000)
  }

  /** The timestamp piece's own error, which the library counts as fatal or not. */
  function DriftError<V(!new)>(hooks: Hooks<V, InherentData>, m: Maker<V>): Entry {
    Entry(hooks.identifier(TimestampCall(Set)), FromPiece(TimestampCall(Set), 0, m.driftIsFatal))
  }

  lemma {:induction false} ClockComplains<V(!new)>(hooks: Hooks<V, InherentData>, m: Maker<V>, d: InherentData,
                                                   s: seq<Tagged<V, ()>>, leaves: seq<Checker>, k: nat, n: nat)
    requires Provides(hooks, m) && OneClock(leaves, k) && k < n <= |leaves| && CountOf(s, leaves[k]) == 1
    requires d.time.Some? && OnChainTime(The(s, leaves[k]).tx).Some?
    ensures Complaints(hooks, d, s, leaves[..n]) ==
            if Drifts(d, The(s, leaves[k]).tx) && !m.driftIsFatal then [DriftError(hooks, m)] else []
  {
    if n == k + 1 {
      NoComplaints(hooks, m, d, s, leaves[..k]);
      ClockOpinion(hooks, m, d, s, leaves[k]);
    } else {
      ClockComplains(hooks, m, d, s, leaves, k, n - 1);
      InfoOpinion(hooks, m, d, s, leaves[n - 1]);
    }
    LastComplaint(hooks, d, s, leaves, n);
  }

  function ComplaintOf<V, D>(hooks: Hooks<V, D>, l: Checker, o: Option<Opinion>): seq<Entry> {
    match o
    case Some(Raised(code, false)) => [Entry(hooks.identifier(Leaf(l)), FromPiece(Leaf(l), code, false))]
    case _ => []
  }

  lemma {:induction false} LastComplaint<V, D>(hooks: Hooks<V, D>, d: D, s: seq<Tagged<V, ()>>, leaves: seq<Checker>,
                                               n: nat)
    requires 0 < n <= |leaves|
    ensures Complaints(hooks, d, s, leaves[..n]) ==
            Complaints(hooks, d, s, leaves[..n - 1]) +
            ComplaintOf(hooks, leaves[n - 1], OpinionOf(hooks, d, s, leaves[n - 1]))
  {
    assert leaves[..n][..n - 1] == leaves[..n - 1] && leaves[..n][n - 1] == leaves[n - 1];
  }

  lemma {:induction false} ClockOpinion<V(!new)>(hooks: Hooks<V, InherentData>, m: Maker<V>, d: InherentData,
                                                 s: seq<Tagged<V, ()>>, l: Checker)
    requires Provides(hooks, m) && ClockLeaf(l) && CountOf(s, l) == 1
    ensures OpinionOf(hooks, d, s, l) == Some(TimestampOpinion(m, d, The(s, l).tx))
  {
    SaysAlike(m, d, The(s, l).tx);
  }

  lemma {:induction false} InfoOpinion<V(!new)>(hooks: Hooks<V, InherentData>, m: Maker<V>, d: InherentData,
                                                s: seq<Tagged<V, ()>>, l: Checker)
    requires Provides(hooks, m) && InfoLeaf(l)
    ensures OpinionOf(hooks, d, s, l).Some? ==> OpinionOf(hooks, d, s, l) == Some(Silent)
  {
  }

  /**
   What such a check reports, when it does not panic: a fatal drift alone, under the timestamp's
   identifier; else the wrong number of inherents alone, under the adapter's; else a drift that is
   not fatal, or nothing.
   */
  lemma {:induction false} ClockReports<V(!new)>(hooks: Hooks<V, InherentData>, m: Maker<V>, tree: Tree,
                                                 d: InherentData, s: seq<Tagged<V, ()>>, k: nat)
    requires Provides(hooks, m) && AllTyped(tree, s) && OneClock(Leaves(tree), k)
    requires CheckAll(hooks, tree, d, s, Report(false, [])).Some?
    ensures var (r, leaves) := (CheckAll(hooks, tree, d, s, Report(false, [])).value, Leaves(tree));
            var drifts := CountOf(s, leaves[k]) == 1 && Drifts(d, The(s, leaves[k]).tx);
            if (forall i :: 0 <= i <= k ==> CountOf(s, leaves[i]) == 1) && drifts && m.driftIsFatal
            then r == Report(true, [DriftError(hooks, m)])
            else if exists i :: 0 <= i < |leaves| && CountOf(s, leaves[i]) != 1
            then r == Report(true, [Entry(ADAPTER_IDENTIFIER, WrongNumberOfInherents)])
            else r == Report(false, if drifts then [DriftError(hooks, m)] else [])
  {
    var leaves, rep := Leaves(tree), Report(false, []);
    CheckExact(hooks, tree, d, s, rep);
    ClockDecides(hooks, m, tree, d, s, k);
    forall i | 0 <= i < |leaves|
      ensures Clears(hooks, d, s, leaves, rep, i) <==>
              CountOf(s, leaves[i]) == 1 && (i == k ==> Mild(ClockSays(m, d, s, leaves[k])))
    {
      ClearsIff(hooks, m, d, s, leaves, k, i);
    }
    if AllClear(hooks, d, s, leaves, rep, |leaves|) {
      assert Clears(hooks, d, s, leaves, rep, k);
      assert leaves[..|leaves|] == leaves;
      ClockComplains(hooks, m, d, s, leaves, k, |leaves|);
      assert forall i :: 0 <= i < |leaves| ==> Clears(hooks, d, s, leaves, rep, i);
    } else {
      var i := FirstThatDoesNot(hooks, d, s, leaves, rep, |leaves|);
      FirstFails(hooks, m, tree, d, s, k, i);
    }
  }

  /** The first leaf that does not clear fails: the clock drifts fatally, or an inherent is missing or repeated. */
  lemma {:induction false} FirstFails<V(!new)>(hooks: Hooks<V, InherentData>, m: Maker<V>, tree: Tree, d: InherentData,
                                               s: seq<Tagged<V, ()>>, k: nat, i: nat)
    requires Provides(hooks, m) && AllTyped(tree, s) && OneClock(Leaves(tree), k) && i < |Leaves(tree)|
    requires CheckAll(hooks, tree, d, s, Report(false, [])).Some?
    requires AllClear(hooks, d, s, Leaves(tree), Report(false, []), i)
    requires !Clears(hooks, d, s, Leaves(tree), Report(false, []), i)
    ensures var (r, leaves) := (CheckAll(hooks, tree, d, s, Report(false, [])).value, Leaves(tree));
            && (forall j :: 0 <= j < i ==> CountOf(s, leaves[j]) == 1)
            && (i > k ==> Mild(ClockSays(m, d, s, leaves[k])))
            && if CountOf(s, leaves[i]) != 1 then r == Report(true, [Entry(ADAPTER_IDENTIFIER, WrongNumberOfInherents)])
               else i == k && Drifts(d, The(s, leaves[k]).tx) && m.driftIsFatal
                    && r == Report(true, [DriftError(hooks, m)])
  {
    var leaves, rep := Leaves(tree), Report(false, []);
    CheckExact(hooks, tree, d, s, rep);
    forall j | 0 <= j <= i
      ensures Clears(hooks, d, s, leaves, rep, j) <==>
              CountOf(s, leaves[j]) == 1 && (j == k ==> Mild(ClockSays(m, d, s, leaves[k])))
      ensures Panics(hooks, d, s, leaves, rep, j) <==> j == k && ClockSays(m, d, s, leaves[k]) == Some(Panicked)
    {
      ClearsIff(hooks, m, d, s, leaves, k, j);
    }
    assert !Panics(hooks, d, s, leaves, rep, i);
    assert Fails(hooks, d, s, leaves, i);
    FatalOnly(CheckAll(hooks, tree, d, s, rep).value);
    if CountOf(s, leaves[i]) == 1 {
      var t := The(s, leaves[k]).tx;
      SaysAlike(m, d, t);
    }
  }

  lemma FatalOnly(r: Report)
    ensures r.fatal && |r.errors| == 1 ==> r == Report(true, [r.errors[0]])
  {
  }

  /** An inherent of the timestamp piece that announces nothing. */
  function Mute<V>(): Transaction<V, Checker> {
    Transaction([], [], [], Adapted(TimestampCall(Set)))
  }

  /** Checking a block whose only inherent has no output panics, whatever the node's clock says. */
  lemma {:induction false} MutePanics<V(!new)>(hooks: Hooks<V, InherentData>, m: Maker<V>, d: InherentData)
    requires Provides(hooks, m)
    ensures CheckBlock(hooks, Inherent(TimestampCall(Set)), d, [Mute<V>()]) == None
  {
    var tree, mute := Inherent(TimestampCall(Set)), Mute<V>();
    var s := [Tagged(mute, ())];
    assert [mute][1..] == [] && s[1..] == [];
    assert OpeningInherents([mute]) == [mute];
    assert Untagged([mute]) == s;
    assert Leaves(tree) == [mute.checker];
    assert OneClock(Leaves(tree), 0);
    ClockDecides(hooks, m, tree, d, s, 0);
  }
}
