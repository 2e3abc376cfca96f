/**
 Inherent continuity: the inherents that an author makes for the child of a block refer to the
 outputs of the block's own inherents, and those outputs are in the UTXO set when they are used
 (`wardrobe/timestamp/src/lib.rs`, `wardrobe/parachain/src/lib.rs`, `tuxedo-core/src/executive.rs`).
 */
module Continuity {
  import opened Scale
  import opened Types
  import opened Typing
  import opened UtxoSet
  import opened Ledger
  import opened Refinement
  import opened Blocks
  import opened Sums
  import opened Wardrobe
  import opened Timestamps
  import opened Parachain
  import opened Clock
  import opened RelayChain
  import opened InherentPieces
  import Inherents
  import Genesis

  // ----- Where a leaf's inherent stands in a block

  lemma {:induction false} OpeningIsPrefix<V>(ts: seq<Transaction<V, Checker>>)
    ensures var n := |Inherents.OpeningInherents(ts)|;
            && n <= |ts| && Inherents.OpeningInherents(ts) == ts[..n]
            && (forall k :: 0 <= k < n ==> IsInherent(ts[k].checker))
            && (n < |ts| ==> !IsInherent(ts[n].checker))
  {
    if ts == [] || !IsInherent(ts[0].checker) {
    } else {
      OpeningIsPrefix(ts[1..]);
      var n := |Inherents.OpeningInherents(ts[1..])|;
      assert [ts[0]] + ts[1..][..n] == ts[..n + 1];
      assert forall k :: 0 <= k < n ==> ts[1..][k] == ts[k + 1];
    }
  }

  lemma {:induction false} BeyondOpening<V(!new)>(rt: Runtime<V, Checker>, host: Host, ts: seq<Transaction<V, Checker>>,
                                                  i: nat)
    requires Dresses(rt, host) && InherentsFirst(rt, ts) && |Inherents.OpeningInherents(ts)| <= i < |ts|
    ensures !IsInherent(ts[i].checker)
  {
    var n := |Inherents.OpeningInherents(ts)|;
    OpeningIsPrefix(ts);
    InherentLeaf(rt, host, ts[i].checker);
    InherentLeaf(rt, host, ts[n].checker);
    assert i == n || rt.isInherent(ts[n].checker) || !rt.isInherent(ts[i].checker);
  }

  lemma {:induction false} CountTwo<V, T>(s: seq<Inherents.Tagged<V, T>>, l: Checker, i: nat)
    requires i < |s| && s[i].tx.checker == l
    ensures Inherents.CountOf(s, l) >= 1
    ensures Inherents.CountOf(s, l) == 1 ==>
              Inherents.The(s, l) == s[i] && forall k :: 0 <= k < |s| && s[k].tx.checker == l ==> k == i
  {
    var rest := s[1..];
    assert forall k :: 0 <= k < |rest| ==> rest[k] == s[k + 1];
    if i > 0 {
      CountTwo(rest, l, i - 1);
    } else if exists k :: 0 <= k < |rest| && rest[k].tx.checker == l {
      var k :| 0 <= k < |rest| && rest[k].tx.checker == l;
      CountTwo(rest, l, k);
    }
  }

  /** The inherent of a leaf, found by its checker, is the only transaction of the block with that checker. */
  lemma {:induction false} LeafPosition<V(!new)>(rt: Runtime<V, Checker>, host: Host, ts: seq<Transaction<V, Checker>>,
                                                 prev: seq<Inherents.Tagged<V, H256>>, l: Checker)
    returns (j: nat)
    requires Dresses(rt, host) && InherentsFirst(rt, ts)
    requires prev == Inherents.Annotate(t => TxHash(rt, t), Inherents.OpeningInherents(ts))
    requires Inherents.CountOf(prev, l) == 1
    ensures j < |ts| && ts[j].checker == l && Inherents.The(prev, l) == Inherents.Tagged(ts[j], TxHash(rt, ts[j]))
    ensures forall i :: 0 <= i < |ts| && ts[i].checker == l ==> i == j
  {
    OpeningIsPrefix(ts);
    Inherents.TheHasLeaf(prev, l);
    j :| 0 <= j < |prev| && prev[j] == Inherents.The(prev, l);
    CountTwo(prev, l, j);
    forall i | 0 <= i < |ts| && ts[i].checker == l ensures i == j {
      if i < |prev| {
        assert prev[i].tx == ts[i];
      } else {
        BeyondOpening(rt, host, ts, i);
      }
    }
  }

  // ----- What happens to the outputs of the inherents for the rest of the block

  lemma {:induction false} HeightStays<V, C>(rt: Runtime<V, C>, st: State<V>, ts: seq<Transaction<V, C>>)
    requires Run(rt, st, Txs(ts))
    ensures Final(rt, st, Txs(ts)).height == st.height
  {
    if ts == [] {
    } else {
      TxsSnoc(rt, st, ts);
      HeightStays(rt, st, ts[..|ts| - 1]);
      NextHeight(rt, Final(rt, st, Txs(ts[..|ts| - 1])), Applied(ts[|ts| - 1]));
    }
  }

  /** A timestamp stays while heights are within the clean up limit. */
  lemma {:induction false} TimestampStays<V(!new)>(rt: Runtime<V, Checker>, host: Host, st: State<V>,
                                                   run: seq<Event<V, Checker>>, r: OutputRef, limit: U32)
    requires Dresses(rt, host) && Run(rt, st, run) && NotedAt(st.utxos, r).Some?
    requires limit == NotedAt(st.utxos, r).value.block + MIN_BLOCKS_BEFORE_CLEANUP
    requires st.height.Some? ==> st.height.value <= limit
    requires forall i :: 0 <= i < |run| && run[i].Opened? ==> run[i].height <= limit
    ensures NotedAt(Final(rt, st, run).utxos, r) == NotedAt(st.utxos, r)
    decreases |run|
  {
    if run == [] {
    } else {
      RecentSurvives(rt, host, st, run[0], r);
      NextHeight(rt, st, run[0]);
      assert forall i :: 0 <= i < |run| - 1 ==> run[1..][i] == run[i + 1];
      TimestampStays(rt, host, Next(rt, st, run[0]), run[1..], r, limit);
    }
  }

  /** The sole parachain info stays where it is while nothing updates it. */
  lemma {:induction false} InfoStays<V(!new)>(rt: Runtime<V, Checker>, host: Host, st: State<V>,
                                              run: seq<Event<V, Checker>>, r: OutputRef, n: U32)
    requires Dresses(rt, host) && Run(rt, st, run) && Sole(host, st.utxos, r, n)
    requires forall i :: 0 <= i < |run| && run[i].Applied? ==> !Updates(run[i].tx)
    ensures Sole(host, Final(rt, st, run).utxos, r, n)
    decreases |run|
  {
    if run == [] {
    } else {
      OtherStep(rt, host, st, run[0], r, n);
      assert forall i :: 0 <= i < |run| - 1 ==> run[1..][i] == run[i + 1];
      InfoStays(rt, host, Next(rt, st, run[0]), run[1..], r, n);
    }
  }

  lemma {:induction false} InfoStaysInBlock<V(!new)>(rt: Runtime<V, Checker>, host: Host, st: State<V>,
                                                     ts: seq<Transaction<V, Checker>>, r: OutputRef, n: U32)
    requires Dresses(rt, host) && Run(rt, st, Txs(ts)) && Sole(host, st.utxos, r, n)
    requires forall i :: 0 <= i < |ts| ==> !Updates(ts[i])
    ensures Sole(host, Final(rt, st, Txs(ts)).utxos, r, n)
  {
    InfoStays(rt, host, st, Txs(ts), r, n);
  }

  lemma {:induction false} TimestampStaysInBlock<V(!new)>(rt: Runtime<V, Checker>, host: Host, st: State<V>,
                                                          ts: seq<Transaction<V, Checker>>, r: OutputRef)
    requires Dresses(rt, host) && Run(rt, st, Txs(ts)) && NotedAt(st.utxos, r).Some? && st.height.Some?
    requires st.height.value <= NotedAt(st.utxos, r).value.block + MIN_BLOCKS_BEFORE_CLEANUP <= MAX_U32
    ensures NotedAt(Final(rt, st, Txs(ts)).utxos, r) == NotedAt(st.utxos, r)
  {
    TimestampStays(rt, host, st, Txs(ts), r, NotedAt(st.utxos, r).value.block + MIN_BLOCKS_BEFORE_CLEANUP);
  }

  lemma {:induction false} SetMakes<V(!new)>(rt: Runtime<V, Checker>, host: Host, st: State<V>,
                                             t: Transaction<V, Checker>)
    requires Dresses(rt, host) && Accepted(rt, st, t) && Leaf(t.checker) == TimestampCall(Set)
    ensures |t.outputs| == 1 && ExtractTimestamp(t.outputs[0].payload).Some?
    ensures Some(ExtractTimestamp(t.outputs[0].payload).value.block) == st.height
    ensures NotedAt(Apply(rt, st, t).0.utxos, OutRef(rt, t, 0)) == ExtractTimestamp(t.outputs[0].payload)
    ensures Apply(rt, st, t).0.height == st.height
  {
    SetShape(rt, host, st, t);
    AcceptedIff(rt, st, t);
    CreatedContents(rt, t, OutRef(rt, t, 0));
  }

  lemma {:induction false} SetStays<V(!new)>(rt: Runtime<V, Checker>, host: Host, st: State<V>,
                                             t: Transaction<V, Checker>, rest: seq<Transaction<V, Checker>>)
    requires Dresses(rt, host) && Accepted(rt, st, t) && Leaf(t.checker) == TimestampCall(Set)
    requires Run(rt, Apply(rt, st, t).0, Txs(rest))
    requires st.height.Some? && st.height.value + MIN_BLOCKS_BEFORE_CLEANUP <= MAX_U32
    ensures |t.outputs| == 1 && ExtractTimestamp(t.outputs[0].payload).Some?
    ensures ExtractTimestamp(t.outputs[0].payload).value.block == st.height.value
    ensures NotedAt(Final(rt, Apply(rt, st, t).0, Txs(rest)).utxos, OutRef(rt, t, 0)) ==
            ExtractTimestamp(t.outputs[0].payload)
  {
    SetMakes(rt, host, st, t);
    TimestampStaysInBlock(rt, host, Apply(rt, st, t).0, rest, OutRef(rt, t, 0));
  }

  /** After a block, the timestamp its clock update made is stored under (hash of the update, 0). */
  lemma {:induction false} TimestampAwaits<V(!new)>(rt: Runtime<V, Checker>, host: Host, st: State<V>,
                                                    ts: seq<Transaction<V, Checker>>, j: nat)
    requires Dresses(rt, host) && Run(rt, st, Txs(ts)) && j < |ts| && Leaf(ts[j].checker) == TimestampCall(Set)
    requires st.height.Some? && st.height.value + MIN_BLOCKS_BEFORE_CLEANUP <= MAX_U32
    ensures |ts[j].outputs| == 1 && ExtractTimestamp(ts[j].outputs[0].payload).Some?
    ensures ExtractTimestamp(ts[j].outputs[0].payload).value.block == st.height.value
    ensures NotedAt(Final(rt, st, Txs(ts)).utxos, OutRef(rt, ts[j], 0)) == ExtractTimestamp(ts[j].outputs[0].payload)
  {
    RunAround(rt, st, ts, j);
    HeightStays(rt, st, ts[..j]);
    SetStays(rt, host, Final(rt, st, Txs(ts[..j])), ts[j], ts[j + 1..]);
  }

  lemma {:induction false} UpdateStays<V(!new)>(rt: Runtime<V, Checker>, host: Host, st: State<V>,
                                                t: Transaction<V, Checker>, rest: seq<Transaction<V, Checker>>,
                                                r: OutputRef, n: U32)
    requires Dresses(rt, host) && Accepted(rt, st, t) && Updates(t) && Sole(host, st.utxos, r, n)
    requires Run(rt, Apply(rt, st, t).0, Txs(rest)) && forall i :: 0 <= i < |rest| ==> !Updates(rest[i])
    ensures |t.outputs| == 1 && ExtractInfo(host.info, t.outputs[0].payload).Some?
    ensures Sole(host, Final(rt, Apply(rt, st, t).0, Txs(rest)).utxos, OutRef(rt, t, 0),
                 ExtractInfo(host.info, t.outputs[0].payload).value.relayParentNumber)
  {
    var r', n' := UpdateStep(rt, host, st, t, r, n);
    InfoStaysInBlock(rt, host, Apply(rt, st, t).0, rest, r', n');
  }

  /** After a block, the sole info is the output of its last update of the relay data. */
  lemma {:induction false} InfoAwaits<V(!new)>(rt: Runtime<V, Checker>, host: Host, st: State<V>,
                                               ts: seq<Transaction<V, Checker>>, j: nat, r: OutputRef, n: U32)
    requires Dresses(rt, host) && Run(rt, st, Txs(ts)) && j < |ts| && Updates(ts[j]) && Sole(host, st.utxos, r, n)
    requires forall i :: j < i < |ts| ==> !Updates(ts[i])
    ensures |ts[j].outputs| == 1 && ExtractInfo(host.info, ts[j].outputs[0].payload).Some?
    ensures Sole(host, Final(rt, st, Txs(ts)).utxos, OutRef(rt, ts[j], 0),
                 ExtractInfo(host.info, ts[j].outputs[0].payload).value.relayParentNumber)
  {
    RunAround(rt, st, ts, j);
    var r', n' := SoleOverRuns(rt, host, st, Txs(ts[..j]), r, n);
    UpdateStays(rt, host, Final(rt, st, Txs(ts[..j])), ts[j], ts[j + 1..], r', n');
  }

  // ----- When the made inherents are accepted

  lemma {:induction false} OnePeek<V>(u: Utxos<V>, r: OutputRef)
    requires r in u
    ensures Peeked(u, [r]) == [u[r].payload]
  {
    assert [r][..0] == [];
    assert Peeked(u, [r][..0]) == [];
  }

  lemma {:induction false} OneEviction<V>(u: Utxos<V>, r: OutputRef)
    requires r in u
    ensures var s := [Input(r, Eviction)]; Redeemed(u, s) == [] && Evicted(u, s) == [u[r].payload]
  {
    var s := [Input(r, Eviction)];
    assert s[..0] == [];
    assert Redeemed(u, s[..0]) == [] && Evicted(u, s[..0]) == [];
  }

  /** A made clock update is accepted exactly when it is new, comes next, and the clock has moved on enough. */
  lemma {:induction false} NextTimestampAcceptedIff<V(!new)>(rt: Runtime<V, Checker>, host: Host, st: State<V>, v: V,
                                                             n: Timestamp, parent: H256, l: Checker)
    requires Dresses(rt, host) && ClockLeaf(l) && st.height == Some(n.block)
    requires NotedAt(st.utxos, OutputRef(parent, 0)).Some?
    ensures var (t, o) := (ClockTx(v, n, parent).(checker := l), NotedAt(st.utxos, OutputRef(parent, 0)).value);
            Accepted(rt, st, t) <==> Ledger.Fresh(rt, st.utxos, t) && n.block == Add32(o.block, 1) && MovedOn(o, n)
  {
    var t := ClockTx(v, n, parent).(checker := l);
    var a := Args(st.utxos, t);
    TimestampRoundTrip(n);
    assert a.outputs == [TimestampData(n)];
    OnePeek(st.utxos, OutputRef(parent, 0));
    assert Dressed(rt, host, l, st.height, st.ambient, a);
  }

  /** At least the minimum interval has passed, unless the old timestamp is that of genesis. */
  predicate MovedOn(o: Timestamp, n: Timestamp) {
    o.block == 0 || n.time >= Add64(o.time, MINIMUM_TIME_INTERVAL)
  }

  /** A made relay data update is accepted exactly when it is new and the relay chain has moved on. */
  lemma {:induction false} NextInfoAcceptedIff<V(!new)>(rt: Runtime<V, Checker>, host: Host, st: State<V>, v: V,
                                                        data: Vec<Byte>, parent: H256, l: Checker, n: U32)
    requires Dresses(rt, host) && InfoLeaf(l) && Sole(host, st.utxos, OutputRef(parent, 0), n)
    requires host.info(data).Some?
    ensures var t := InfoTx(v, data, parent).(checker := l);
            Accepted(rt, st, t) <==> Ledger.Fresh(rt, st.utxos, t) && host.info(data).value.relayParentNumber > n
  {
    var t := InfoTx(v, data, parent).(checker := l);
    InfoTxPassesIff(rt, host, st, v, data, parent, l, n);
    assert Spendable(rt, st, t, t.inputs[0]);
  }

  lemma {:induction false} InfoTxPassesIff<V(!new)>(rt: Runtime<V, Checker>, host: Host, st: State<V>, v: V,
                                                    data: Vec<Byte>, parent: H256, l: Checker, n: U32)
    requires Dresses(rt, host) && InfoLeaf(l) && Sole(host, st.utxos, OutputRef(parent, 0), n)
    requires host.info(data).Some?
    ensures rt.check(l, st.height, st.ambient, Args(st.utxos, InfoTx(v, data, parent).(checker := l))).passed <==>
            host.info(data).value.relayParentNumber > n
  {
    var old_, new_ := st.utxos[OutputRef(parent, 0)].payload, DynamicallyTypedData(data, PARACHAIN_ID);
    var a := Args(st.utxos, InfoTx(v, data, parent).(checker := l));
    assert a == CheckArgs([], [old_], [], [new_]) by {
      OneEviction(st.utxos, OutputRef(parent, 0));
    }
    assert Dressed(rt, host, l, st.height, st.ambient, a);
  }

  // ----- The made inherents as a run

  /** What the two pieces make, given the clock, the relay data and the leaves; each refers to an output zero. */
  ghost predicate IsMade<V>(v: V, n: Timestamp, data: Vec<Byte>, leaves: seq<Checker>,
                            made: seq<Transaction<V, Checker>>) {
    && |made| == |leaves|
    && forall k :: 0 <= k < |made| ==>
         && (ClockLeaf(leaves[k]) ==>
               |made[k].peeks| == 1 && made[k] == ClockTx(v, n, made[k].peeks[0].txHash).(checker := leaves[k]))
         && (InfoLeaf(leaves[k]) ==>
               && |made[k].inputs| == 1
               && made[k] == InfoTx(v, data, made[k].inputs[0].outputRef.txHash).(checker := leaves[k]))
  }

  /** A timestamp of the given block is stored at the reference. */
  predicate Stamped<V>(u: Utxos<V>, r: OutputRef, block: int) {
    NotedAt(u, r).Some? && NotedAt(u, r).value.block == block
  }

  /** The reference of inherent `t` of leaf `l` is there, in a block being built at the state's height. */
  ghost predicate Ready<V>(host: Host, st: State<V>, l: Checker, t: Transaction<V, Checker>) {
    && (ClockLeaf(l) ==> |t.peeks| == 1 && st.height.Some? && Stamped(st.utxos, t.peeks[0], st.height.value - 1))
    && (InfoLeaf(l) ==>
          && |t.inputs| == 1 && NumberAt(host, st.utxos, t.inputs[0].outputRef).Some?
          && Sole(host, st.utxos, t.inputs[0].outputRef, NumberAt(host, st.utxos, t.inputs[0].outputRef).value))
  }

  /** The relay parent number stored at a reference. */
  function NumberAt<V>(host: Host, u: Utxos<V>, r: OutputRef): Option<U32> {
    if r in u && ExtractInfo(host.info, u[r].payload).Some?
    then Some(ExtractInfo(host.info, u[r].payload).value.relayParentNumber) else None
  }

  ghost predicate AllReady<V>(host: Host, st: State<V>, leaves: seq<Checker>, made: seq<Transaction<V, Checker>>) {
    && |made| == |leaves| && st.height.Some? && st.height.value - 1 + MIN_BLOCKS_BEFORE_CLEANUP <= MAX_U32
    && forall k :: 0 <= k < |made| ==> Ready(host, st, leaves[k], made[k])
  }

  predicate OneInfo(leaves: seq<Checker>) {
    forall i, j :: 0 <= i < j < |leaves| ==> !(InfoLeaf(leaves[i]) && InfoLeaf(leaves[j]))
  }

  /** The reference of inherent `k` is still there, unchanged, when the inherents before it have been applied. */
  lemma {:induction false} ReadyAtUse<V(!new)>(rt: Runtime<V, Checker>, host: Host, st: State<V>, leaves: seq<Checker>,
                                               made: seq<Transaction<V, Checker>>, k: nat)
    requires Dresses(rt, host) && AllReady(host, st, leaves, made) && OneInfo(leaves) && k < |made|
    requires forall i :: 0 <= i < |made| ==> made[i].checker == leaves[i]
    requires Run(rt, st, Txs(made[..k]))
    ensures var st' := Final(rt, st, Txs(made[..k]));
            && st'.height == st.height && Ready(host, st', leaves[k], made[k])
            && (ClockLeaf(leaves[k]) ==> NotedAt(st'.utxos, made[k].peeks[0]) == NotedAt(st.utxos, made[k].peeks[0]))
            && (InfoLeaf(leaves[k]) ==>
                  NumberAt(host, st'.utxos, made[k].inputs[0].outputRef) ==
                  NumberAt(host, st.utxos, made[k].inputs[0].outputRef))
  {
    HeightStays(rt, st, made[..k]);
    assert Ready(host, st, leaves[k], made[k]);
    if ClockLeaf(leaves[k]) {
      TimestampStaysInBlock(rt, host, st, made[..k], made[k].peeks[0]);
    }
    if InfoLeaf(leaves[k]) {
      forall i | 0 <= i < k ensures !Updates(made[..k][i]) {
        assert made[..k][i].checker == leaves[i] && !InfoLeaf(leaves[i]);
      }
      InfoStaysInBlock(rt, host, st, made[..k], made[k].inputs[0].outputRef,
                       NumberAt(host, st.utxos, made[k].inputs[0].outputRef).value);
    }
  }

  /** Inherent `k` makes something new, and the clock or the relay chain has moved on since the parent block. */
  ghost predicate Due<V>(rt: Runtime<V, Checker>, host: Host, st: State<V>, n: Timestamp, data: Vec<Byte>,
                         leaves: seq<Checker>, made: seq<Transaction<V, Checker>>, k: nat)
    requires AllReady(host, st, leaves, made) && k < |made| && host.info(data).Some?
  {
    && Ledger.Fresh(rt, Final(rt, st, Txs(made[..k])).utxos, made[k])
    && (ClockLeaf(leaves[k]) ==>
          Ready(host, st, leaves[k], made[k]) && MovedOn(NotedAt(st.utxos, made[k].peeks[0]).value, n))
    && (InfoLeaf(leaves[k]) ==>
          && Ready(host, st, leaves[k], made[k])
          && host.info(data).value.relayParentNumber > NumberAt(host, st.utxos, made[k].inputs[0].outputRef).value)
  }

  ghost predicate AllDue<V>(rt: Runtime<V, Checker>, host: Host, st: State<V>, n: Timestamp, data: Vec<Byte>,
                            leaves: seq<Checker>, made: seq<Transaction<V, Checker>>)
    requires AllReady(host, st, leaves, made) && host.info(data).Some?
  {
    forall k :: 0 <= k < |made| ==> Due(rt, host, st, n, data, leaves, made, k)
  }

  /** The list can be applied, one after the other, exactly when each of them is due. */
  ghost predicate RunsWhenDue<V>(rt: Runtime<V, Checker>, host: Host, st: State<V>, n: Timestamp, data: Vec<Byte>,
                                 leaves: seq<Checker>, made: seq<Transaction<V, Checker>>) {
    && AllReady(host, st, leaves, made) && host.info(data).Some?
    && (Run(rt, st, Txs(made)) <==> AllDue(rt, host, st, n, data, leaves, made))
  }

  lemma {:induction false} AcceptedIsDue<V(!new)>(rt: Runtime<V, Checker>, host: Host, st: State<V>, v: V, n: Timestamp,
                                                  data: Vec<Byte>, leaves: seq<Checker>,
                                                  made: seq<Transaction<V, Checker>>, k: nat)
    requires Dresses(rt, host) && AllReady(host, st, leaves, made) && OneInfo(leaves) && OnlyTheseTwo(leaves)
    requires IsMade(v, n, data, leaves, made) && st.height == Some(n.block) && host.info(data).Some? && k < |made|
    requires Run(rt, st, Txs(made[..k]))
    ensures Accepted(rt, Final(rt, st, Txs(made[..k])), made[k]) <==> Due(rt, host, st, n, data, leaves, made, k)
  {
    var st', l, t := Final(rt, st, Txs(made[..k])), leaves[k], made[k];
    ReadyAtUse(rt, host, st, leaves, made, k);
    if ClockLeaf(l) {
      SmallAdd(NotedAt(st.utxos, t.peeks[0]).value.block);
      NextTimestampAcceptedIff(rt, host, st', v, n, t.peeks[0].txHash, l);
    } else {
      NextInfoAcceptedIff(rt, host, st', v, data, t.inputs[0].outputRef.txHash, l,
                          NumberAt(host, st'.utxos, t.inputs[0].outputRef).value);
    }
  }

  lemma SmallAdd(b: U32)
    requires b + 1 <= MAX_U32
    ensures Add32(b, 1) == b + 1
  {
  }

  lemma {:induction false} RunPrefix<V, C>(rt: Runtime<V, C>, st: State<V>, ts: seq<Transaction<V, C>>, k: nat)
    requires k < |ts|
    ensures Run(rt, st, Txs(ts[..k + 1])) <==>
            Run(rt, st, Txs(ts[..k])) && Accepted(rt, Final(rt, st, Txs(ts[..k])), ts[k])
  {
    var e := Event<V, C>.Applied(ts[k]);
    assert Txs(ts[..k + 1]) == Txs(ts[..k]) + [e];
    RunSnoc(rt, st, Txs(ts[..k]), e);
  }

  /** If each step is reached through good ones only, everything is reached exactly when all are good. */
  lemma {:induction false} ReachedIffGood(reached: seq<bool>, good: seq<bool>, k: nat)
    requires k <= |good| && |reached| == |good| + 1 && reached[0]
    requires forall i :: 0 <= i < |good| ==> (reached[i + 1] <==> reached[i] && good[i])
    ensures reached[k] <==> forall i :: 0 <= i < k ==> good[i]
  {
    if k > 0 {
      ReachedIffGood(reached, good, k - 1);
      assert reached[k - 1 + 1] <==> reached[k - 1] && good[k - 1];
    }
  }

  /** The made inherents can all be applied, in order, exactly when each of them is due. */
  lemma {:induction false} MadeRunIff<V(!new)>(rt: Runtime<V, Checker>, host: Host, st: State<V>, v: V, n: Timestamp,
                                               data: Vec<Byte>, leaves: seq<Checker>,
                                               made: seq<Transaction<V, Checker>>)
    requires Dresses(rt, host) && AllReady(host, st, leaves, made) && OneInfo(leaves) && OnlyTheseTwo(leaves)
    requires IsMade(v, n, data, leaves, made) && st.height == Some(n.block) && host.info(data).Some?
    ensures RunsWhenDue(rt, host, st, n, data, leaves, made)
  {
    var good := seq(|made|, k requires 0 <= k < |made| => Due(rt, host, st, n, data, leaves, made, k));
    var reached := seq(|made| + 1, k requires 0 <= k <= |made| => Run(rt, st, Txs(made[..k])));
    forall k | 0 <= k < |made| ensures reached[k + 1] <==> reached[k] && good[k] {
      StepReached(rt, host, st, v, n, data, leaves, made, k);
    }
    assert Txs(made[..0]) == [];
    ReachedIffGood(reached, good, |made|);
    assert made[..|made|] == made;
    assert forall k :: 0 <= k < |made| ==> (good[k] <==> Due(rt, host, st, n, data, leaves, made, k));
  }

  lemma {:induction false} StepReached<V(!new)>(rt: Runtime<V, Checker>, host: Host, st: State<V>, v: V, n: Timestamp,
                                                data: Vec<Byte>, leaves: seq<Checker>,
                                                made: seq<Transaction<V, Checker>>, k: nat)
    requires Dresses(rt, host) && AllReady(host, st, leaves, made) && OneInfo(leaves) && OnlyTheseTwo(leaves)
    requires IsMade(v, n, data, leaves, made) && st.height == Some(n.block) && host.info(data).Some? && k < |made|
    ensures Run(rt, st, Txs(made[..k + 1])) <==>
            Run(rt, st, Txs(made[..k])) && Due(rt, host, st, n, data, leaves, made, k)
  {
    RunPrefix(rt, st, made, k);
    if Run(rt, st, Txs(made[..k])) {
      AcceptedIsDue(rt, host, st, v, n, data, leaves, made, k);
    }
  }

  /** What a run of transactions leaves was there before or was created by one of them. */
  lemma {:induction false} UtxoOrigin<V, C>(rt: Runtime<V, C>, st: State<V>, ts: seq<Transaction<V, C>>, r: OutputRef)
    requires Run(rt, st, Txs(ts)) && r in Final(rt, st, Txs(ts)).utxos && r !in st.utxos
    ensures exists i :: 0 <= i < |ts| && r.txHash == TxHash(rt, ts[i])
  {
    var p, t := ts[..|ts| - 1], ts[|ts| - 1];
    TxsSnoc(rt, st, ts);
    AcceptedIff(rt, Final(rt, st, Txs(p)), t);
    CreatedContents(rt, t, r);
    if r.txHash != TxHash(rt, t) {
      UtxoOrigin(rt, st, p, r);
      var i :| 0 <= i < |p| && r.txHash == TxHash(rt, p[i]);
      assert ts[i] == p[i];
    }
  }

  /** An inherent whose output is not there at the start, and whose hash is its own, is new when its turn comes. */
  lemma {:induction false} NewIsFresh<V, C>(rt: Runtime<V, C>, st: State<V>, made: seq<Transaction<V, C>>, k: nat)
    requires k < |made| && Run(rt, st, Txs(made[..k])) && Ledger.Fresh(rt, st.utxos, made[k])
    requires forall i :: 0 <= i < k ==> TxHash(rt, made[i]) != TxHash(rt, made[k])
    ensures Ledger.Fresh(rt, Final(rt, st, Txs(made[..k])).utxos, made[k])
  {
    forall i | 0 <= i < |made[k].outputs| ensures OutRef(rt, made[k], i) !in Final(rt, st, Txs(made[..k])).utxos {
      if OutRef(rt, made[k], i) in Final(rt, st, Txs(made[..k])).utxos {
        UtxoOrigin(rt, st, made[..k], OutRef(rt, made[k], i));
        assert false;
      }
    }
  }

  // ----- Blocks and chains

  /** The block opens with exactly one inherent per leaf of the runtime's checker type. */
  ghost predicate Regular<V>(rt: Runtime<V, Checker>, tree: Inherents.Tree, ts: seq<Transaction<V, Checker>>) {
    var prev := Inherents.Annotate(t => TxHash(rt, t), Inherents.OpeningInherents(ts));
    Inherents.AllTyped(tree, prev) && Inherents.OneEach(Inherents.Leaves(tree), prev)
  }

  /** The inherents an author makes on top of a block. */
  function ForChild<V>(rt: Runtime<V, Checker>, hooks: Inherents.Hooks<V, InherentData>, tree: Inherents.Tree,
                       d: InherentData, parent: seq<Transaction<V, Checker>>): Option<seq<Transaction<V, Checker>>> {
    Inherents.InherentExtrinsics(hooks, tree, t => TxHash(rt, t), d, parent)
  }

  /** The state in which the child of a block of the given number is built. */
  ghost function Child<V(!new)>(rt: Runtime<V, Checker>, s: Storage, number: U32): State<V>
    requires number < MAX_U32
  {
    Abs(rt.codecs, s).(height := Some(number + 1))
  }

  /** On top of a regular block, every leaf's inherent is made from that leaf's inherent in the block. */
  lemma {:induction false} MadeFromParent<V(!new)>(rt: Runtime<V, Checker>, host: Host,
                                                   hooks: Inherents.Hooks<V, InherentData>, tree: Inherents.Tree,
                                                   d: InherentData, ts: seq<Transaction<V, Checker>>, k: nat)
    returns (j: nat)
    requires Dresses(rt, host) && Inherents.Faithful(hooks) && InherentsFirst(rt, ts) && Regular(rt, tree, ts)
    requires Inherents.Supplies(hooks, Inherents.Leaves(tree), d) && k < |Inherents.Leaves(tree)|
    ensures j < |ts|
    ensures var (made, l) := (ForChild(rt, hooks, tree, d, ts), Inherents.Leaves(tree)[k]);
            var own := hooks.create(Leaf(l), d, Inherents.AtLeaf(ts[j]), TxHash(rt, ts[j]));
            && made.Some? && |made.value| == |Inherents.Leaves(tree)|
            && ts[j].checker == l && (forall i :: 0 <= i < |ts| && ts[i].checker == l ==> i == j)
            && own.Some? && made.value[k] == own.value.(checker := l)
  {
    var prev, l := Inherents.Annotate(t => TxHash(rt, t), Inherents.OpeningInherents(ts)), Inherents.Leaves(tree)[k];
    Inherents.CreateSupplied(hooks, tree, d, prev);
    Inherents.CreateExact(hooks, tree, d, prev);
    j := LeafPosition(rt, host, ts, prev, l);
    assert Inherents.CanMake(hooks, d, prev, l);
  }

  /** The clock's inherent refers to output zero of the clock's inherent in the parent. */
  lemma {:induction false} ClockReference<V(!new)>(rt: Runtime<V, Checker>, host: Host,
                                                   hooks: Inherents.Hooks<V, InherentData>, m: Maker<V>,
                                                   tree: Inherents.Tree, d: InherentData,
                                                   ts: seq<Transaction<V, Checker>>, k: nat)
    returns (j: nat)
    requires Dresses(rt, host) && Inherents.Faithful(hooks) && Provides(hooks, m)
    requires InherentsFirst(rt, ts) && Regular(rt, tree, ts)
    requires Inherents.Supplies(hooks, Inherents.Leaves(tree), d) && k < |Inherents.Leaves(tree)|
    requires ClockLeaf(Inherents.Leaves(tree)[k])
    ensures j < |ts| && ClockLeaf(ts[j].checker)
    ensures var made := ForChild(rt, hooks, tree, d, ts);
            made.Some? && k < |made.value| && made.value[k].peeks == [OutputRef(TxHash(rt, ts[j]), 0)]
  {
    j := MadeFromParent(rt, host, hooks, tree, d, ts, k);
  }

  /** The parachain piece's inherent refers to output zero of its inherent in the parent. */
  lemma {:induction false} InfoReference<V(!new)>(rt: Runtime<V, Checker>, host: Host,
                                                  hooks: Inherents.Hooks<V, InherentData>, m: Maker<V>,
                                                  tree: Inherents.Tree, d: InherentData,
                                                  ts: seq<Transaction<V, Checker>>, k: nat)
    returns (j: nat)
    requires Dresses(rt, host) && Inherents.Faithful(hooks) && Provides(hooks, m)
    requires InherentsFirst(rt, ts) && Regular(rt, tree, ts)
    requires Inherents.Supplies(hooks, Inherents.Leaves(tree), d)
    requires k < |Inherents.Leaves(tree)| && InfoLeaf(Inherents.Leaves(tree)[k])
    requires UpdatesOnlyBy(ts, Inherents.Leaves(tree)[k])
    ensures j < |ts| && Updates(ts[j]) && forall i :: j < i < |ts| ==> !Updates(ts[i])
    ensures var made := ForChild(rt, hooks, tree, d, ts);
            made.Some? && k < |made.value| && made.value[k].inputs == [Input(OutputRef(TxHash(rt, ts[j]), 0), Eviction)]
  {
    j := MadeFromParent(rt, host, hooks, tree, d, ts, k);
  }

  /** Only leaf `l` updates the relay data. */
  predicate UpdatesOnlyBy<V>(ts: seq<Transaction<V, Checker>>, l: Checker) {
    forall i :: 0 <= i < |ts| && Updates(ts[i]) ==> ts[i].checker == l
  }

  /** What an author can rely on when building on block `n` of an imported chain. */
  ghost predicate Authoring<V(!new)>(rt: Runtime<V, Checker>, host: Host, hooks: Inherents.Hooks<V, InherentData>,
                                     m: Maker<V>, tree: Inherents.Tree, s: Storage, chain: seq<Block<V, Checker>>,
                                     n: nat, d: InherentData) {
    && LawfulCodecs(rt.codecs) && Dresses(rt, host)
    && Inherents.Faithful(hooks) && Provides(hooks, m) && Inherents.Supplies(hooks, Inherents.Leaves(tree), d)
    && Import(rt, s, chain).Some? && n < |chain| && Regular(rt, tree, chain[n].extrinsics)
    && chain[n].header.number + MIN_BLOCKS_BEFORE_CLEANUP <= MAX_U32
  }

  /** The state of the child of block `n`. */
  ghost function ChildOf<V(!new)>(rt: Runtime<V, Checker>, s: Storage, chain: seq<Block<V, Checker>>, n: nat): State<V>
    requires n < |chain| && chain[n].header.number < MAX_U32 && Import(rt, s, chain[..n + 1]).Some?
  {
    Child(rt, Import(rt, s, chain[..n + 1]).value, chain[n].header.number)
  }

  lemma {:induction false} ChildHeight<V(!new)>(rt: Runtime<V, Checker>, s: Storage, chain: seq<Block<V, Checker>>,
                                                n: nat)
    requires n < |chain| && chain[n].header.number < MAX_U32 && Import(rt, s, chain[..n + 1]).Some?
    ensures ChildOf(rt, s, chain, n).height == Some(chain[n].header.number + 1)
  {
  }

  lemma {:induction false} BlockOf<V(!new)>(rt: Runtime<V, Checker>, host: Host, s: Storage,
                                            chain: seq<Block<V, Checker>>, n: nat)
    requires LawfulCodecs(rt.codecs) && Dresses(rt, host) && Import(rt, s, chain).Some?
    requires n < |chain| && chain[n].header.number < MAX_U32
    ensures Import(rt, s, chain[..n]).Some? && Import(rt, s, chain[..n + 1]).Some?
    ensures InherentsFirst(rt, chain[n].extrinsics)
    ensures var st := Abs(rt.codecs, Import(rt, s, chain[..n]).value).(height := Some(chain[n].header.number));
            && Run(rt, st, Txs(chain[n].extrinsics))
            && Final(rt, st, Txs(chain[n].extrinsics)).utxos == ChildOf(rt, s, chain, n).utxos
  {
    WardrobeConfined(rt, host);
    ImportedBlockIsRun(rt, s, chain, n);
  }

  /**
   Over every imported chain: on top of any block with one inherent per leaf, the author's clock
   update peeks at the timestamp of that very block, which is in the UTXO set when the update is
   used, whatever transactions have been applied to the child before.
   */
  lemma {:induction false} TimestampContinuity<V(!new)>(rt: Runtime<V, Checker>, host: Host,
                                                        hooks: Inherents.Hooks<V, InherentData>, m: Maker<V>,
                                                        tree: Inherents.Tree, s: Storage, chain: seq<Block<V, Checker>>,
                                                        n: nat, d: InherentData, k: nat,
                                                        before: seq<Transaction<V, Checker>>)
    requires Authoring(rt, host, hooks, m, tree, s, chain, n, d)
    requires k < |Inherents.Leaves(tree)| && ClockLeaf(Inherents.Leaves(tree)[k])
    ensures var made := ForChild(rt, hooks, tree, d, chain[n].extrinsics);
            && made.Some? && k < |made.value| && Import(rt, s, chain[..n + 1]).Some?
            && Ready(host, ChildOf(rt, s, chain, n), Inherents.Leaves(tree)[k], made.value[k])
            && (Run(rt, ChildOf(rt, s, chain, n), Txs(before)) ==>
                  Stamped(Final(rt, ChildOf(rt, s, chain, n), Txs(before)).utxos, made.value[k].peeks[0],
                          chain[n].header.number))
  {
    BlockOf(rt, host, s, chain, n);
    var j := ClockReference(rt, host, hooks, m, tree, d, chain[n].extrinsics, k);
    ClockOfBlock(rt, host, s, chain, n, j, before);
  }

  /** The timestamp that transaction `j` of block `n` made, in the child and for as long as it is built. */
  lemma {:induction false} ClockOfBlock<V(!new)>(rt: Runtime<V, Checker>, host: Host, s: Storage,
                                                 chain: seq<Block<V, Checker>>, n: nat, j: nat,
                                                 before: seq<Transaction<V, Checker>>)
    requires LawfulCodecs(rt.codecs) && Dresses(rt, host) && Import(rt, s, chain).Some? && n < |chain|
    requires j < |chain[n].extrinsics| && ClockLeaf(chain[n].extrinsics[j].checker)
    requires chain[n].header.number + MIN_BLOCKS_BEFORE_CLEANUP <= MAX_U32
    ensures Import(rt, s, chain[..n + 1]).Some?
    ensures var (st, r) := (ChildOf(rt, s, chain, n), OutputRef(TxHash(rt, chain[n].extrinsics[j]), 0));
            && Stamped(st.utxos, r, chain[n].header.number)
            && (Run(rt, st, Txs(before)) ==> Stamped(Final(rt, st, Txs(before)).utxos, r, chain[n].header.number))
  {
    var ts, number := chain[n].extrinsics, chain[n].header.number;
    BlockOf(rt, host, s, chain, n);
    TimestampAwaits(rt, host, Abs(rt.codecs, Import(rt, s, chain[..n]).value).(height := Some(number)), ts, j);
    if Run(rt, ChildOf(rt, s, chain, n), Txs(before)) {
      TimestampStaysInBlock(rt, host, ChildOf(rt, s, chain, n), before, OutRef(rt, ts[j], 0));
    }
  }

  /**
   Likewise the author's relay data update evicts the sole parachain info, if the parent holds no
   update but its inherent; it is there when it is used, if nothing before it in the child is an
   update. The chain starts from any state with a sole parachain info.
   */
  lemma {:induction false} InfoContinuity<V(!new)>(rt: Runtime<V, Checker>, host: Host,
                                                   hooks: Inherents.Hooks<V, InherentData>, m: Maker<V>,
                                                   tree: Inherents.Tree, s: Storage, chain: seq<Block<V, Checker>>,
                                                   n: nat, d: InherentData, k: nat,
                                                   before: seq<Transaction<V, Checker>>, r: OutputRef, number: U32)
    requires Authoring(rt, host, hooks, m, tree, s, chain, n, d) && Sole(host, UtxosOf(rt.codecs, s), r, number)
    requires k < |Inherents.Leaves(tree)| && InfoLeaf(Inherents.Leaves(tree)[k])
    requires UpdatesOnlyBy(chain[n].extrinsics, Inherents.Leaves(tree)[k])
    requires forall i :: 0 <= i < |before| ==> !Updates(before[i])
    ensures var made := ForChild(rt, hooks, tree, d, chain[n].extrinsics);
            && made.Some? && k < |made.value| && Import(rt, s, chain[..n + 1]).Some?
            && Ready(host, ChildOf(rt, s, chain, n), Inherents.Leaves(tree)[k], made.value[k])
            && (Run(rt, ChildOf(rt, s, chain, n), Txs(before)) ==>
                  Sole(host, Final(rt, ChildOf(rt, s, chain, n), Txs(before)).utxos, made.value[k].inputs[0].outputRef,
                       NumberAt(host, ChildOf(rt, s, chain, n).utxos, made.value[k].inputs[0].outputRef).value))
  {
    BlockOf(rt, host, s, chain, n);
    var j := InfoReference(rt, host, hooks, m, tree, d, chain[n].extrinsics, k);
    InfoOfBlock(rt, host, s, chain, n, j, before, r, number);
  }

  /** The parachain info that the last update of block `n` made, in the child and for as long as nothing updates it. */
  lemma {:induction false} InfoOfBlock<V(!new)>(rt: Runtime<V, Checker>, host: Host, s: Storage,
                                                chain: seq<Block<V, Checker>>, n: nat, j: nat,
                                                before: seq<Transaction<V, Checker>>, r: OutputRef, number: U32)
    requires LawfulCodecs(rt.codecs) && Dresses(rt, host) && Import(rt, s, chain).Some?
    requires n < |chain| && chain[n].header.number < MAX_U32
    requires Sole(host, UtxosOf(rt.codecs, s), r, number)
    requires j < |chain[n].extrinsics| && Updates(chain[n].extrinsics[j])
    requires forall i :: j < i < |chain[n].extrinsics| ==> !Updates(chain[n].extrinsics[i])
    requires forall i :: 0 <= i < |before| ==> !Updates(before[i])
    ensures Import(rt, s, chain[..n + 1]).Some?
    ensures var (st, r') := (ChildOf(rt, s, chain, n), OutputRef(TxHash(rt, chain[n].extrinsics[j]), 0));
            && NumberAt(host, st.utxos, r').Some? && Sole(host, st.utxos, r', NumberAt(host, st.utxos, r').value)
            && (Run(rt, st, Txs(before)) ==>
                  Sole(host, Final(rt, st, Txs(before)).utxos, r', NumberAt(host, st.utxos, r').value))
  {
    var ts := chain[n].extrinsics;
    BlockOf(rt, host, s, chain, n);
    var r', n' := SoleAt(rt, host, s, chain[..n], r, number);
    InfoAwaits(rt, host, Abs(rt.codecs, Import(rt, s, chain[..n]).value).(height := Some(chain[n].header.number)),
               ts, j, r', n');
    var st, r'' := ChildOf(rt, s, chain, n), OutRef(rt, ts[j], 0);
    if Run(rt, st, Txs(before)) {
      InfoStaysInBlock(rt, host, st, before, r'', NumberAt(host, st.utxos, r'').value);
    }
  }

  /** What the author's list consists of. */
  lemma {:induction false} ForChildIsMade<V(!new)>(rt: Runtime<V, Checker>, host: Host,
                                                   hooks: Inherents.Hooks<V, InherentData>, m: Maker<V>,
                                                   tree: Inherents.Tree, now: Timestamp, info: ParachainInfo,
                                                   ts: seq<Transaction<V, Checker>>, made: seq<Transaction<V, Checker>>)
    requires Dresses(rt, host) && Inherents.Faithful(hooks) && Provides(hooks, m)
    requires InherentsFirst(rt, ts) && Regular(rt, tree, ts)
    requires m.unspendable.Some?
    requires Inherents.Supplies(hooks, Inherents.Leaves(tree),
                                InherentData(Some(now.time), Some(now.block), Some(info)))
    requires Some(made) == ForChild(rt, hooks, tree, InherentData(Some(now.time), Some(now.block), Some(info)), ts)
    ensures IsMade(m.unspendable.value, now, m.infoBytes(info), Inherents.Leaves(tree), made)
  {
    var d := InherentData(Some(now.time), Some(now.block), Some(info));
    var prev, leaves := Inherents.Annotate(t => TxHash(rt, t), Inherents.OpeningInherents(ts)), Inherents.Leaves(tree);
    var v, data := m.unspendable.value, m.infoBytes(info);
    Inherents.CreateExact(hooks, tree, d, prev);
    forall k | 0 <= k < |leaves|
      ensures ClockLeaf(leaves[k]) ==>
                |made[k].peeks| == 1 && made[k] == ClockTx(v, now, made[k].peeks[0].txHash).(checker := leaves[k])
      ensures InfoLeaf(leaves[k]) ==>
                && |made[k].inputs| == 1
                && made[k] == InfoTx(v, data, made[k].inputs[0].outputRef.txHash).(checker := leaves[k])
    {
      var j := MadeFromParent(rt, host, hooks, tree, d, ts, k);
    }
  }

  /**
   The whole list: on top of any regular block of an imported chain, the made inherents can be
   applied to the child one after the other exactly when each makes something new, the clock has
   moved on by the minimum interval and the relay parent number has grown.
   */
  lemma {:induction false} ChildInherentsRunIff<V(!new)>(rt: Runtime<V, Checker>, host: Host,
                                                         hooks: Inherents.Hooks<V, InherentData>, m: Maker<V>,
                                                         tree: Inherents.Tree, s: Storage,
                                                         chain: seq<Block<V, Checker>>, n: nat, now: Timestamp,
                                                         info: ParachainInfo, made: seq<Transaction<V, Checker>>,
                                                         r: OutputRef, number: U32)
    requires Authoring(rt, host, hooks, m, tree, s, chain, n, InherentData(Some(now.time), Some(now.block), Some(info)))
    requires Sole(host, UtxosOf(rt.codecs, s), r, number)
    requires OnlyTheseTwo(Inherents.Leaves(tree)) && OneInfo(Inherents.Leaves(tree))
    requires forall k :: 0 <= k < |Inherents.Leaves(tree)| && InfoLeaf(Inherents.Leaves(tree)[k]) ==>
               UpdatesOnlyBy(chain[n].extrinsics, Inherents.Leaves(tree)[k])
    requires m.unspendable.Some? && now.block == chain[n].header.number + 1 && host.info(m.infoBytes(info)).Some?
    requires Some(made) ==
             ForChild(rt, hooks, tree, InherentData(Some(now.time), Some(now.block), Some(info)), chain[n].extrinsics)
    ensures Import(rt, s, chain[..n + 1]).Some?
    ensures RunsWhenDue(rt, host, ChildOf(rt, s, chain, n), now, m.infoBytes(info), Inherents.Leaves(tree), made)
  {
    var d := InherentData(Some(now.time), Some(now.block), Some(info));
    BlockOf(rt, host, s, chain, n);
    ForChildIsMade(rt, host, hooks, m, tree, now, info, chain[n].extrinsics, made);
    ChildIsReady(rt, host, hooks, m, tree, s, chain, n, d, made, r, number);
    ChildHeight(rt, s, chain, n);
    MadeRunIff(rt, host, ChildOf(rt, s, chain, n), m.unspendable.value, now, m.infoBytes(info),
               Inherents.Leaves(tree), made);
  }

  lemma {:induction false} ChildIsReady<V(!new)>(rt: Runtime<V, Checker>, host: Host,
                                                 hooks: Inherents.Hooks<V, InherentData>, m: Maker<V>,
                                                 tree: Inherents.Tree, s: Storage, chain: seq<Block<V, Checker>>,
                                                 n: nat, d: InherentData, made: seq<Transaction<V, Checker>>,
                                                 r: OutputRef, number: U32)
    requires Authoring(rt, host, hooks, m, tree, s, chain, n, d) && Sole(host, UtxosOf(rt.codecs, s), r, number)
    requires OnlyTheseTwo(Inherents.Leaves(tree))
    requires forall k :: 0 <= k < |Inherents.Leaves(tree)| && InfoLeaf(Inherents.Leaves(tree)[k]) ==>
               UpdatesOnlyBy(chain[n].extrinsics, Inherents.Leaves(tree)[k])
    requires Some(made) == ForChild(rt, hooks, tree, d, chain[n].extrinsics) && |made| == |Inherents.Leaves(tree)|
    requires Import(rt, s, chain[..n + 1]).Some?
    ensures AllReady(host, ChildOf(rt, s, chain, n), Inherents.Leaves(tree), made)
  {
    var leaves, st := Inherents.Leaves(tree), ChildOf(rt, s, chain, n);
    forall k | 0 <= k < |made| ensures Ready(host, st, leaves[k], made[k]) {
      if ClockLeaf(leaves[k]) {
        TimestampContinuity(rt, host, hooks, m, tree, s, chain, n, d, k, []);
      } else {
        InfoContinuity(rt, host, hooks, m, tree, s, chain, n, d, k, [], r, number);
      }
    }
  }

  /** Every chain keeps a sole parachain info. */
  lemma {:induction false} SoleAt<V(!new)>(rt: Runtime<V, Checker>, host: Host, s: Storage,
                                           chain: seq<Block<V, Checker>>, r: OutputRef, n: U32)
    returns (r': OutputRef, n': U32)
    requires LawfulCodecs(rt.codecs) && Dresses(rt, host) && Import(rt, s, chain).Some?
    requires Sole(host, UtxosOf(rt.codecs, s), r, n)
    ensures Sole(host, UtxosOf(rt.codecs, Import(rt, s, chain).value), r', n') && n' >= n
  {
    WardrobeConfined(rt, host);
    ImportIsRun(rt, s, chain);
    r', n' := SoleOverRuns(rt, host, Abs(rt.codecs, s), ChainEvents(chain), r, n);
    if Announced(host, ChainEvents(chain)) != [] {
      IncreasingEnds(n, Announced(host, ChainEvents(chain)));
    }
  }

  // ----- Genesis

  /** The first block's inherents refer to outputs of the genesis transactions, which the genesis state holds. */
  lemma {:induction false} GenesisContinuity<V(!new)>(rt: Runtime<V, Checker>, hooks: Inherents.Hooks<V, InherentData>,
                                                      m: Maker<V>, tree: Inherents.Tree,
                                                      body: seq<Transaction<V, Checker>>, d: InherentData, k: nat)
    requires Inherents.Faithful(hooks) && Inherents.OneGenesisEach(hooks)
    requires Provides(hooks, m) && Inherents.NoInherents(body)
    requires m.unspendable.Some? && Inherents.Supplies(hooks, Inherents.Leaves(tree), d) && k < |Inherents.Leaves(tree)|
    requires Genesis.NoClash(rt, Inherents.GenesisTransactions(hooks, tree) + body)
    ensures var (ts, l) := (Inherents.GenesisTransactions(hooks, tree) + body, Inherents.Leaves(tree)[k]);
            var (made, u) := (ForChild(rt, hooks, tree, d, ts), Genesis.GenesisUtxos(rt, ts));
            && made.Some? && k < |made.value|
            && (ClockLeaf(l) ==>
                  |made.value[k].peeks| == 1 && NotedAt(u, made.value[k].peeks[0]) == Some(Timestamp(0, 0)))
            && (InfoLeaf(l) ==>
                  |made.value[k].inputs| == 1 && made.value[k].inputs[0].outputRef in u &&
                  u[made.value[k].inputs[0].outputRef] ==
                  Output(DynamicallyTypedData(m.infoBytes(m.genesisInfo), PARACHAIN_ID), m.unspendable.value))
  {
    GenesisReference(rt, hooks, m, tree, body, d, k);
    var (ts, l) := (Inherents.GenesisTransactions(hooks, tree) + body, Inherents.Leaves(tree)[k]);
    if ClockLeaf(l) || InfoLeaf(l) {
      Genesis.GenesisContents(rt, ts, OutputRef(TxHash(rt, ts[k]), 0));
    }
    TimestampRoundTrip(Timestamp(0, 0));
  }

  lemma {:induction false} GenesisReference<V(!new)>(rt: Runtime<V, Checker>, hooks: Inherents.Hooks<V, InherentData>,
                                                     m: Maker<V>, tree: Inherents.Tree,
                                                     body: seq<Transaction<V, Checker>>, d: InherentData, k: nat)
    requires Inherents.Faithful(hooks) && Inherents.OneGenesisEach(hooks)
    requires Provides(hooks, m) && Inherents.NoInherents(body)
    requires m.unspendable.Some? && Inherents.Supplies(hooks, Inherents.Leaves(tree), d) && k < |Inherents.Leaves(tree)|
    ensures var (ts, l) := (Inherents.GenesisTransactions(hooks, tree) + body, Inherents.Leaves(tree)[k]);
            var made := ForChild(rt, hooks, tree, d, ts);
            && made.Some? && k < |made.value| && k < |ts|
            && (ClockLeaf(l) ==>
                  && made.value[k].peeks == [OutputRef(TxHash(rt, ts[k]), 0)]
                  && ts[k].outputs == [Output(TimestampData(Timestamp(0, 0)), m.unspendable.value)])
            && (InfoLeaf(l) ==>
                  && made.value[k].inputs == [Input(OutputRef(TxHash(rt, ts[k]), 0), Eviction)]
                  && ts[k].outputs ==
                     [Output(DynamicallyTypedData(m.infoBytes(m.genesisInfo), PARACHAIN_ID), m.unspendable.value)])
  {
    MadeFromGenesis(rt, hooks, tree, body, d, k);
  }

  lemma {:induction false} MadeFromGenesis<V(!new)>(rt: Runtime<V, Checker>, hooks: Inherents.Hooks<V, InherentData>,
                                                    tree: Inherents.Tree, body: seq<Transaction<V, Checker>>,
                                                    d: InherentData, k: nat)
    requires Inherents.Faithful(hooks) && Inherents.OneGenesisEach(hooks) && Inherents.NoInherents(body)
    requires Inherents.Supplies(hooks, Inherents.Leaves(tree), d) && k < |Inherents.Leaves(tree)|
    ensures var (ts, l) := (Inherents.GenesisTransactions(hooks, tree) + body, Inherents.Leaves(tree)[k]);
            && k < |ts| && ts[k] == hooks.genesis(Leaf(l))[0].(checker := l)
            && var made := ForChild(rt, hooks, tree, d, ts);
               var own := hooks.create(Leaf(l), d, Inherents.AtLeaf(ts[k]), TxHash(rt, ts[k]));
               made.Some? && k < |made.value| && own.Some? && made.value[k] == own.value.(checker := l)
  {
    var inherents := Inherents.GenesisTransactions(hooks, tree);
    Inherents.GenesisLeaves(hooks, tree);
    Inherents.GenesisMade(hooks, tree, k);
    Inherents.ContinuityStep(hooks, tree, t => TxHash(rt, t), d, inherents, body);
    assert inherents[k] == (inherents + body)[k] && Inherents.Checkers(inherents)[k] == inherents[k].checker;
  }

  /** Only transaction `j` of the genesis block makes a parachain info, and it makes one. */
  ghost predicate InfoOnlyFrom<V>(host: Host, ts: seq<Transaction<V, Checker>>, j: nat) {
    && j < |ts| && |ts[j].outputs| == 1 && ExtractInfo(host.info, ts[j].outputs[0].payload).Some?
    && forall i, k :: 0 <= i < |ts| && 0 <= k < |ts[i].outputs| && IsInfo(ts[i].outputs[k]) ==> i == j
  }

  lemma {:induction false} GenesisSole<V(!new)>(rt: Runtime<V, Checker>, host: Host, ts: seq<Transaction<V, Checker>>,
                                                j: nat)
    requires InfoOnlyFrom(host, ts, j)
    requires Genesis.NoClash(rt, ts)
    ensures Sole(host, Genesis.GenesisUtxos(rt, ts), OutRef(rt, ts[j], 0),
                 ExtractInfo(host.info, ts[j].outputs[0].payload).value.relayParentNumber)
  {
    var u, r := Genesis.GenesisUtxos(rt, ts), OutRef(rt, ts[j], 0);
    Genesis.GenesisContents(rt, ts, r);
    forall x | x in u && IsInfo(u[x]) ensures x == r {
      Genesis.GenesisContents(rt, ts, x);
      var i :| 0 <= i < |ts| && TxHash(rt, ts[i]) == x.txHash && x.index < |ts[i].outputs|;
      assert IsInfo(ts[i].outputs[x.index]);
    }
  }

  /** The state in which the first block is built. */
  ghost function FirstState<V>(rt: Runtime<V, Checker>, base: Storage, ts: seq<Transaction<V, Checker>>): State<V> {
    State(Some(1), base, Genesis.GenesisUtxos(rt, ts))
  }

  /** The first block's inherents find their references, and can be applied exactly when each is due. */
  lemma {:induction false} FirstInherentsRunIff<V(!new)>(rt: Runtime<V, Checker>, host: Host, base: Storage,
                                                         hooks: Inherents.Hooks<V, InherentData>, m: Maker<V>,
                                                         tree: Inherents.Tree, body: seq<Transaction<V, Checker>>,
                                                         now: Timestamp, info: ParachainInfo,
                                                         made: seq<Transaction<V, Checker>>)
    requires Dresses(rt, host) && Inherents.Faithful(hooks) && Inherents.OneGenesisEach(hooks)
    requires Provides(hooks, m) && Inherents.NoInherents(body)
    requires m.unspendable.Some?
    requires Inherents.Supplies(hooks, Inherents.Leaves(tree),
                                InherentData(Some(now.time), Some(now.block), Some(info)))
    requires OnlyTheseTwo(Inherents.Leaves(tree)) && OneInfo(Inherents.Leaves(tree))
    requires Genesis.NoClash(rt, Inherents.GenesisTransactions(hooks, tree) + body)
    requires forall k :: 0 <= k < |Inherents.Leaves(tree)| && InfoLeaf(Inherents.Leaves(tree)[k]) ==>
               InfoOnlyFrom(host, Inherents.GenesisTransactions(hooks, tree) + body, k)
    requires now.block == 1 && host.info(m.infoBytes(info)).Some?
    requires Some(made) == ForChild(rt, hooks, tree, InherentData(Some(now.time), Some(now.block), Some(info)),
                                    Inherents.GenesisTransactions(hooks, tree) + body)
    ensures RunsWhenDue(rt, host, FirstState(rt, base, Inherents.GenesisTransactions(hooks, tree) + body), now,
                        m.infoBytes(info), Inherents.Leaves(tree), made)
  {
    var d := InherentData(Some(now.time), Some(now.block), Some(info));
    var leaves, ts := Inherents.Leaves(tree), Inherents.GenesisTransactions(hooks, tree) + body;
    var v, data, st := m.unspendable.value, m.infoBytes(info), FirstState(rt, base, ts);
    FirstIsMade(rt, hooks, m, tree, body, now, info, made);
    forall k | 0 <= k < |leaves| ensures Ready(host, st, leaves[k], made[k]) {
      FirstIsReady(rt, host, base, hooks, m, tree, body, d, k);
    }
    MadeRunIff(rt, host, st, v, now, data, leaves, made);
  }

  lemma {:induction false} FirstIsMade<V(!new)>(rt: Runtime<V, Checker>, hooks: Inherents.Hooks<V, InherentData>,
                                                m: Maker<V>, tree: Inherents.Tree, body: seq<Transaction<V, Checker>>,
                                                now: Timestamp, info: ParachainInfo, made: seq<Transaction<V, Checker>>)
    requires Inherents.Faithful(hooks) && Inherents.OneGenesisEach(hooks)
    requires Provides(hooks, m) && Inherents.NoInherents(body)
    requires m.unspendable.Some?
    requires Inherents.Supplies(hooks, Inherents.Leaves(tree),
                                InherentData(Some(now.time), Some(now.block), Some(info)))
    requires Some(made) == ForChild(rt, hooks, tree, InherentData(Some(now.time), Some(now.block), Some(info)),
                                    Inherents.GenesisTransactions(hooks, tree) + body)
    ensures IsMade(m.unspendable.value, now, m.infoBytes(info), Inherents.Leaves(tree), made)
  {
    var d, leaves := InherentData(Some(now.time), Some(now.block), Some(info)), Inherents.Leaves(tree);
    var v, data := m.unspendable.value, m.infoBytes(info);
    MadeCount(rt, hooks, tree, body, d, made);
    forall k | 0 <= k < |leaves|
      ensures ClockLeaf(leaves[k]) ==>
                |made[k].peeks| == 1 && made[k] == ClockTx(v, now, made[k].peeks[0].txHash).(checker := leaves[k])
      ensures InfoLeaf(leaves[k]) ==>
                && |made[k].inputs| == 1
                && made[k] == InfoTx(v, data, made[k].inputs[0].outputRef.txHash).(checker := leaves[k])
    {
      MadeFromGenesis(rt, hooks, tree, body, d, k);
    }
  }

  lemma {:induction false} MadeCount<V(!new)>(rt: Runtime<V, Checker>, hooks: Inherents.Hooks<V, InherentData>,
                                              tree: Inherents.Tree, body: seq<Transaction<V, Checker>>, d: InherentData,
                                              made: seq<Transaction<V, Checker>>)
    requires Inherents.Faithful(hooks) && Inherents.OneGenesisEach(hooks) && Inherents.NoInherents(body)
    requires Inherents.Supplies(hooks, Inherents.Leaves(tree), d)
    requires Some(made) == ForChild(rt, hooks, tree, d, Inherents.GenesisTransactions(hooks, tree) + body)
    ensures |made| == |Inherents.Leaves(tree)|
  {
    Inherents.GenesisLeaves(hooks, tree);
    Inherents.ContinuityStep(hooks, tree, t => TxHash(rt, t), d, Inherents.GenesisTransactions(hooks, tree), body);
    assert |Inherents.Checkers(made)| == |made|;
  }

  lemma {:induction false} FirstIsReady<V(!new)>(rt: Runtime<V, Checker>, host: Host, base: Storage,
                                                 hooks: Inherents.Hooks<V, InherentData>, m: Maker<V>,
                                                 tree: Inherents.Tree, body: seq<Transaction<V, Checker>>,
                                                 d: InherentData, k: nat)
    requires Inherents.Faithful(hooks) && Inherents.OneGenesisEach(hooks)
    requires Provides(hooks, m) && Inherents.NoInherents(body)
    requires m.unspendable.Some? && Inherents.Supplies(hooks, Inherents.Leaves(tree), d) && k < |Inherents.Leaves(tree)|
    requires Genesis.NoClash(rt, Inherents.GenesisTransactions(hooks, tree) + body)
    requires InfoLeaf(Inherents.Leaves(tree)[k]) ==>
               InfoOnlyFrom(host, Inherents.GenesisTransactions(hooks, tree) + body, k)
    ensures var ts := Inherents.GenesisTransactions(hooks, tree) + body;
            var made := ForChild(rt, hooks, tree, d, ts);
            && made.Some? && k < |made.value|
            && Ready(host, FirstState(rt, base, ts), Inherents.Leaves(tree)[k], made.value[k])
  {
    var l, ts := Inherents.Leaves(tree)[k], Inherents.GenesisTransactions(hooks, tree) + body;
    GenesisContinuity(rt, hooks, m, tree, body, d, k);
    if InfoLeaf(l) {
      GenesisReference(rt, hooks, m, tree, body, d, k);
      GenesisSole(rt, host, ts, k);
    }
  }

  /** Every state reachable from such a genesis holds exactly one parachain info, with a number that never went down. */
  lemma {:induction false} SoleFromGenesis<V(!new)>(rt: Runtime<V, Checker>, host: Host, base: Storage,
                                                    ts: seq<Transaction<V, Checker>>, j: nat, encoded: Bytes,
                                                    chain: seq<Block<V, Checker>>)
    returns (r: OutputRef, n: U32)
    requires LawfulCodecs(rt.codecs) && Dresses(rt, host) && Genesis.Unreserved(base)
    requires Genesis.Rootless(ts) && InfoOnlyFrom(host, ts, j)
    requires Genesis.NoClash(rt, ts)
    requires Import(rt, Genesis.GenesisStorage(rt, base, ts, encoded), chain).Some?
    ensures Sole(host, UtxosOf(rt.codecs, Import(rt, Genesis.GenesisStorage(rt, base, ts, encoded), chain).value), r, n)
    ensures n >= ExtractInfo(host.info, ts[j].outputs[0].payload).value.relayParentNumber
  {
    Genesis.GenesisIsReady(rt, base, ts, encoded);
    GenesisSole(rt, host, ts, j);
    r, n := SoleAt(rt, host, Genesis.GenesisStorage(rt, base, ts, encoded), chain, OutRef(rt, ts[j], 0),
                   ExtractInfo(host.info, ts[j].outputs[0].payload).value.relayParentNumber);
  }

  /** The genesis transactions make no timestamp but the zero one. */
  predicate ZeroTimestamps<V>(ts: seq<Transaction<V, Checker>>) {
    forall i, k :: 0 <= i < |ts| && 0 <= k < |ts[i].outputs| ==>
      var t := ExtractTimestamp(ts[i].outputs[k].payload); t.Some? ==> t.value == Timestamp(0, 0)
  }

  lemma {:induction false} GenesisClock<V>(rt: Runtime<V, Checker>, ts: seq<Transaction<V, Checker>>, r: OutputRef)
    requires ZeroTimestamps(ts) && Genesis.NoClash(rt, ts) && NotedAt(Genesis.GenesisUtxos(rt, ts), r).Some?
    ensures NotedAt(Genesis.GenesisUtxos(rt, ts), r).value == Timestamp(0, 0)
  {
    Genesis.GenesisContents(rt, ts, r);
    var i :| 0 <= i < |ts| && TxHash(rt, ts[i]) == r.txHash && r.index < |ts[i].outputs|;
    assert Genesis.GenesisUtxos(rt, ts)[r] == ts[i].outputs[r.index];
  }

  /**
   The clock over every imported chain: from genesis on it never runs slow, and recent timestamps
   have their predecessor.
   */
  lemma {:induction false} ClockFromGenesis<V(!new)>(rt: Runtime<V, Checker>, host: Host, base: Storage,
                                                     ts: seq<Transaction<V, Checker>>, encoded: Bytes,
                                                     chain: seq<Block<V, Checker>>, cleaned: bool)
    requires LawfulCodecs(rt.codecs) && Dresses(rt, host) && Genesis.Unreserved(base)
    requires Genesis.Rootless(ts) && Genesis.NoClash(rt, ts) && ZeroTimestamps(ts)
    requires Import(rt, Genesis.GenesisStorage(rt, base, ts, encoded), chain).Some?
    requires AllInRange(ChainEvents(chain), cleaned)
    requires if cleaned then Ascending(Some(0), ChainEvents(chain))
             else forall i :: 0 <= i < |ChainEvents(chain)| ==> !CleansUp(ChainEvents(chain)[i])
    ensures Ticking(Abs(rt.codecs, Import(rt, Genesis.GenesisStorage(rt, base, ts, encoded), chain).value), cleaned)
  {
    var s := Genesis.GenesisStorage(rt, base, ts, encoded);
    WardrobeConfined(rt, host);
    Genesis.GenesisIsReady(rt, base, ts, encoded);
    forall r | NotedAt(Genesis.GenesisUtxos(rt, ts), r).Some?
      ensures NotedAt(Genesis.GenesisUtxos(rt, ts), r).value == Timestamp(0, 0)
    {
      GenesisClock(rt, ts, r);
    }
    GenesisTicks(Abs(rt.codecs, s), cleaned);
    ImportIsRun(rt, s, chain);
    ClockOverRuns(rt, host, Abs(rt.codecs, s), ChainEvents(chain), cleaned);
  }
}
